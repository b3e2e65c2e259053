// isApkOrApt, which tells whether the dependency commands of a driver's final image only call a package manager (build/build.go).
module BuildDeps {
  import opened Strings

  /** The package managers a dependency command may call. */
  const Managers: seq<string> := ["apt", "apt-get", "apk"]

  /** The separators of a compound shell command, in the order they are tried. */
  const Separators: seq<string> := ["&&", "&", "||", ";", "\n"]

  predicate CallsManager(s: string)
  {
    HasPrefix(s, "apt ") || HasPrefix(s, "apt-get ") || HasPrefix(s, "apk ")
  }

  /** CallsManager is the test for "p " over the three managers p. */
  lemma {:induction false} CallsManagerMeans(s: string)
    ensures CallsManager(s) <==> exists k :: 0 <= k < |Managers| && HasPrefix(s, Managers[k] + " ")
  {
    assert Managers[0] + " " == "apt " && Managers[1] + " " == "apt-get " && Managers[2] + " " == "apk ";
  }

  /** A split with more than one part gives parts shorter than the text. */
  lemma {:induction false} SplitShorter(s: string, sep: string, k: int)
    requires |sep| > 0 && |Split(s, sep)| > 1 && 0 <= k < |Split(s, sep)|
    ensures |Split(s, sep)[k]| < |s|
    decreases |s|
  {
    var i := IndexOf(s, sep);
    assert i >= 0;
    var rest := s[i + |sep|..];
    if k > 0 && |Split(rest, sep)| > 1 {
      SplitShorter(rest, sep, k - 1);
    }
  }

  /**
   * isApkOrApt: a blank command is allowed; otherwise it must call apt,
   * apt-get or apk, and wherever one of the five separators cuts it into
   * several parts, every part must itself be allowed.
   */
  function IsApkOrApt(s: string): bool
    decreases |s|, 1
  {
    var t := TrimSpace(s);
    if t == "" then true
    else if !CallsManager(t) then false
    else
      SeparatorOk(t, "&&") && SeparatorOk(t, "&") && SeparatorOk(t, "||")
      && SeparatorOk(t, ";") && SeparatorOk(t, "\n")
  }

  /** One iteration of the separator loop: sep leaves t whole, or every part is allowed. */
  predicate SeparatorOk(t: string, sep: string)
    requires |sep| > 0
    decreases |t|, 0
  {
    var sub := Split(t, sep);
    if |sub| == 1 then true
    else
      assert forall i :: 0 <= i < |sub| ==> |sub[i]| < |t| by {
        forall i | 0 <= i < |sub| ensures |sub[i]| < |t| { SplitShorter(t, sep, i); }
      }
      forall m :: 0 <= m < |sub| ==> IsApkOrApt(sub[m])
  }

  /** The separators of a compound command. */
  predicate IsSeparator(sep: string)
  {
    sep == "&&" || sep == "&" || sep == "||" || sep == ";" || sep == "\n"
  }

  lemma {:induction false} SeparatorsListed(sep: string)
    ensures IsSeparator(sep) <==> sep in Separators
  {
  }

  /** An accepted non-blank command calls a package manager, and wherever a separator cuts it into several parts, each part is accepted. */
  lemma {:induction false} AcceptedParts(s: string, sep: string, m: int)
    requires IsApkOrApt(s) && TrimSpace(s) != "" && IsSeparator(sep)
    requires |Split(TrimSpace(s), sep)| > 1 && 0 <= m < |Split(TrimSpace(s), sep)|
    ensures CallsManager(TrimSpace(s))
    ensures IsApkOrApt(Split(TrimSpace(s), sep)[m])
  {
    assert SeparatorOk(TrimSpace(s), sep);
  }

  /** A non-blank package-manager call that no separator cuts into a refused part is accepted. */
  lemma {:induction false} AcceptedWhenPartsAre(s: string)
    requires TrimSpace(s) != "" && CallsManager(TrimSpace(s))
    requires forall sep, m ::
      IsSeparator(sep) && |Split(TrimSpace(s), sep)| > 1 && 0 <= m < |Split(TrimSpace(s), sep)| ==> IsApkOrApt(Split(TrimSpace(s), sep)[m])
    ensures IsApkOrApt(s)
  {
    var t := TrimSpace(s);
    assert IsSeparator("&&") && IsSeparator("&") && IsSeparator("||") && IsSeparator(";") && IsSeparator("\n");
    assert SeparatorOk(t, "&&");
    assert SeparatorOk(t, "&");
    assert SeparatorOk(t, "||");
    assert SeparatorOk(t, ";");
    assert SeparatorOk(t, "\n");
  }

  /** A text without the first character of a separator is not cut by it. */
  lemma {:induction false} SplitWhole(t: string, sep: string)
    requires |sep| > 0 && sep[0] !in t
    ensures Split(t, sep) == [t]
  {
    IndexHit(t, sep);
  }

  lemma {:induction false} IndexHit(t: string, sep: string)
    requires |sep| > 0
    ensures IndexOf(t, sep) >= 0 ==> sep[0] in t
  {
    var i := IndexOf(t, sep);
    if i >= 0 { assert t[i..i + |sep|][0] == t[i]; assert t[i] in t; }
  }

  /** Each package manager's name starts with 'a'. */
  lemma {:induction false} NoManager(s: string)
    requires |s| > 0 && s[0] != 'a'
    ensures !CallsManager(s)
  {
    if |s| >= 4 { assert s[..4][0] == s[0]; }
    if |s| >= 8 { assert s[..8][0] == s[0]; }
  }

  lemma {:induction false} Trimmed(s: string)
    requires |s| > 0 && !IsSpace(s[0]) && !IsSpace(s[|s| - 1])
    ensures TrimSpace(s) == s
  {
  }

  lemma {:induction false} EchoRefused(e: string)
    requires e == " echo"
    ensures !IsApkOrApt(e)
  {
    var t := e[1..];
    assert IsSpace(e[0]) && e[1..] == t;
    assert TrimLeftSpace(e) == TrimLeftSpace(t);
    assert TrimLeftSpace(t) == t;
    Trimmed(t);
    NoManager(t);
  }

  /** A text the separator occurs in once, at i, splits into the two sides of that occurrence. */
  lemma {:induction false} SplitOnce(t: string, sep: string, i: int)
    requires |sep| > 0 && OccursAt(t, sep, i) && sep[0] !in t[..i] && sep[0] !in t[i + |sep|..]
    ensures Split(t, sep) == [t[..i], t[i + |sep|..]]
  {
    forall j | 0 <= j < i ensures !OccursAt(t, sep, j) {
      assert t[j..j + |sep|][0] == t[..i][j];
    }
    assert IndexOf(t, sep) == i;
    SplitWhole(t[i + |sep|..], sep);
  }

  /** A separator between two texts that lack its first character cuts exactly there. */
  lemma {:induction false} SplitAround(a: string, sep: string, b: string)
    requires |sep| > 0 && sep[0] !in a && sep[0] !in b
    ensures Split(a + sep + b, sep) == [a, b]
  {
    var t := a + sep + b;
    assert t[..|a|] == a && t[|a| + |sep|..] == b && t[|a|..|a| + |sep|] == sep;
    SplitOnce(t, sep, |a|);
  }

  lemma {:induction false} SplitEcho(t: string)
    requires t == "apt update && echo"
    ensures Split(t, "&&") == ["apt update ", " echo"]
  {
    var a, b := "apt update ", " echo";
    assert t == a + "&&" + b;
    assert '&' !in a && '&' !in b;
    SplitAround(a, "&&", b);
  }

  /** A command cut by some separator into a part that is refused is refused. */
  lemma {:induction false} RefusedPart(t: string, sep: string, m: int)
    requires TrimSpace(t) == t && IsSeparator(sep)
    requires |Split(t, sep)| > 1 && 0 <= m < |Split(t, sep)|
    requires !IsApkOrApt(Split(t, sep)[m])
    ensures !IsApkOrApt(t)
  {
    if IsApkOrApt(t) {
      AcceptedParts(t, sep, m);
      assert false;
    }
  }

  /** A command chained with && to something that is not a package-manager call is refused. */
  lemma {:induction false} RefusesChainedEcho(t: string)
    requires t == "apt update && echo"
    ensures !IsApkOrApt(t)
  {
    Trimmed(t);
    SplitEcho(t);
    EchoRefused(" echo");
    RefusedPart(t, "&&", 1);
  }

  /** A package-manager call that contains no separator is accepted. */
  lemma {:induction false} SimpleAccepted(s: string)
    requires PlainCall(TrimSpace(s))
    ensures IsApkOrApt(s)
  {
    var t := TrimSpace(s);
    SplitWhole(t, "&&");
    SplitWhole(t, "&");
    SplitWhole(t, "||");
    SplitWhole(t, ";");
    SplitWhole(t, "\n");
  }

  /** A package-manager call cut only by ";", into accepted parts, is accepted. */
  lemma {:induction false} AcceptedSemicolon(t: string)
    requires TrimSpace(t) == t && CallsManager(t) && '&' !in t && '|' !in t && '\n' !in t
    requires forall m :: 0 <= m < |Split(t, ";")| ==> IsApkOrApt(Split(t, ";")[m])
    ensures IsApkOrApt(t)
  {
    SplitWhole(t, "&&");
    SplitWhole(t, "&");
    SplitWhole(t, "||");
    SplitWhole(t, "\n");
    assert SeparatorOk(t, ";");
  }

  /** A command of one package-manager call without separator characters. */
  predicate PlainCall(c: string)
  {
    CallsManager(c) && '&' !in c && '|' !in c && ';' !in c && '\n' !in c
  }

  lemma {:induction false} InstallXPlain(a: string)
    requires a == "apt install x"
    ensures TrimSpace(a) == a && PlainCall(a)
  {
    Trimmed(a);
    assert a[..4] == "apt ";
  }

  lemma {:induction false} InstallX(a: string)
    requires a == "apt install x"
    ensures IsApkOrApt(a)
  {
    InstallXPlain(a);
    SimpleAccepted(a);
  }

  /** One leading blank is trimmed away. */
  lemma {:induction false} TrimLeadingBlank(c: string)
    requires |c| > 0 && !IsSpace(c[0]) && !IsSpace(c[|c| - 1])
    ensures TrimSpace(" " + c) == c
  {
    var b := " " + c;
    assert b[1..] == c;
    assert TrimLeftSpace(b) == TrimLeftSpace(c) == c;
  }

  lemma {:induction false} InstallYTrim(b: string)
    requires b == " apt install y"
    ensures TrimSpace(b) == "apt install y"
  {
    var c := "apt install y";
    assert b == " " + c;
    TrimLeadingBlank(c);
  }

  lemma {:induction false} InstallYPlain(c: string)
    requires c == "apt install y"
    ensures PlainCall(c)
  {
    assert c[..4] == "apt ";
  }

  lemma {:induction false} InstallY(b: string)
    requires b == " apt install y"
    ensures IsApkOrApt(b)
  {
    InstallYTrim(b);
    InstallYPlain(TrimSpace(b));
    SimpleAccepted(b);
  }

  /** Two accepted commands joined by ";" into a plain call otherwise are accepted. */
  lemma {:induction false} TwoCalls(t: string, a: string, b: string)
    requires Split(t, ";") == [a, b] && IsApkOrApt(a) && IsApkOrApt(b)
    requires TrimSpace(t) == t && CallsManager(t) && '&' !in t && '|' !in t && '\n' !in t
    ensures IsApkOrApt(t)
  {
    var sub := Split(t, ";");
    assert forall m :: 0 <= m < |sub| ==> IsApkOrApt(sub[m]) by {
      forall m | 0 <= m < |sub| ensures IsApkOrApt(sub[m]) {
        if m == 0 { assert sub[m] == a; } else { assert sub[m] == b; }
      }
    }
    AcceptedSemicolon(t);
  }

  lemma {:induction false} InstallsShape(t: string, a: string, b: string)
    requires t == "apt install x; apt install y" && a == "apt install x" && b == " apt install y"
    ensures t == a + ";" + b && ';' !in a && ';' !in b
  {
  }

  lemma {:induction false} InstallsCall(t: string)
    requires t == "apt install x; apt install y"
    ensures TrimSpace(t) == t && CallsManager(t)
  {
    Trimmed(t);
    assert t[..4] == "apt ";
  }

  lemma {:induction false} InstallsChars(t: string)
    requires t == "apt install x; apt install y"
    ensures '&' !in t && '|' !in t && '\n' !in t
  {
  }

  /** Two package-manager calls joined by ; are accepted. */
  lemma {:induction false} AcceptsTwoInstalls(t: string)
    requires t == "apt install x; apt install y"
    ensures IsApkOrApt(t)
  {
    var a, b := "apt install x", " apt install y";
    InstallsShape(t, a, b);
    InstallsCall(t);
    InstallsChars(t);
    InstallXPlain(a);
    InstallYTrim(b);
    InstallYPlain(TrimSpace(b));
    SplitAround(a, ";", b);
    SimpleAccepted(a);
    SimpleAccepted(b);
    TwoCalls(t, a, b);
  }
}
