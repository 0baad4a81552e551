/** The laws of the version comparator, and exactly when a pre-release sorts first. */
module VersionOrder {
  import opened Wrappers
  import opened Version

  predicate AtMost(a: string, b: string) { CompareVersions(a, b) != GREATER }

  /** Equal outcomes mean equal token lists, and swapping the arguments swaps the outcome. */
  lemma CompareIsAntisymmetric(a: string, b: string)
    ensures CompareVersions(a, b) == EQUAL <==> VersionKeys(a) == VersionKeys(b)
    ensures CompareVersions(a, b) == LESS <==> CompareVersions(b, a) == GREATER
    ensures CompareVersions(a, a) == EQUAL
  {
    LexicographicOutcome(VersionKeys(a), VersionKeys(b));
    LexicographicOutcome(VersionKeys(a), VersionKeys(a));
    LexicographicFlips(VersionKeys(a), VersionKeys(b));
  }

  lemma {:induction false} LexicographicFlips(xs: seq<Key>, ys: seq<Key>)
    ensures Lexicographic(xs, ys) == LESS <==> Lexicographic(ys, xs) == GREATER
  {
    if xs != [] && ys != [] && xs[0] == ys[0] {
      LexicographicFlips(xs[1..], ys[1..]);
    }
  }

  lemma {:induction false} LexicographicTransitive(xs: seq<Key>, ys: seq<Key>, zs: seq<Key>)
    requires Lexicographic(xs, ys) != GREATER && Lexicographic(ys, zs) != GREATER
    ensures Lexicographic(xs, zs) != GREATER
    ensures Lexicographic(xs, zs) == EQUAL ==> Lexicographic(xs, ys) == EQUAL && Lexicographic(ys, zs) == EQUAL
  {
    if xs != [] && ys != [] && zs != [] && xs[0] == ys[0] && ys[0] == zs[0] {
      LexicographicTransitive(xs[1..], ys[1..], zs[1..]);
    }
  }

  /** With the flip law this makes the comparator a total preorder on all non-NULL versions. */
  lemma CompareIsTransitive(a: string, b: string, c: string)
    requires AtMost(a, b) && AtMost(b, c)
    ensures AtMost(a, c)
    ensures CompareVersions(a, c) == EQUAL ==> CompareVersions(a, b) == EQUAL && CompareVersions(b, c) == EQUAL
  {
    LexicographicTransitive(VersionKeys(a), VersionKeys(b), VersionKeys(c));
  }

  // ----- Pre-releases -----

  /** The text ends in a token after which a suffix may start. */
  predicate AcceptsSuffix(t: Token, s: string)
    requires !t.Last()
    decreases Size(t, s)
  {
    if s == [] then !t.RevisionNo? && !t.Letter?
    else match Scan(t, s)
      case None => false
      case Some(x) =>
        var rest := s[x.length..];
        if rest == [] then !x.zeros && !t.RevisionNo?
        else var (_, n, rest') := Step(t, s); !n.Last() && AcceptsSuffix(n, rest')
  }

  /** A suffixed version is less than the plain one unless that one ends in a run of leading
      zeros or a revision, or is not a valid version. */
  lemma PreReleaseSortsFirst(v: string, pre: string, tail: string)
    requires pre in PRE_SUFFIXES
    ensures CompareVersions(v + "_" + pre + tail, v) == LESS <==> AcceptsSuffix(Digit, v)
  {
    assert v + "_" + pre + tail == v + ("_" + pre + tail);
    PreReleaseFrom(Digit, v, pre, tail);
  }

  /** So "pre-releases come first" fails after a zero component: 1.0_alpha is not below 1.0. */
  lemma PreReleaseAfterZero()
    ensures CompareVersions("1.0_alpha", "1.0") != LESS
  {
    assert PRE_SUFFIXES[0] == "alpha";
    assert "1.0" + "_" + "alpha" + "" == "1.0_alpha";
    PreReleaseSortsFirst("1.0", "alpha", "");
    assert DigitRun("1.0") == 1 && NextToken(Digit, ".0") == (DigitOrZero, "0");
    assert Step(Digit, "1.0").1 == DigitOrZero && Step(Digit, "1.0").2 == "0";
    assert !AcceptsSuffix(DigitOrZero, "0");
  }

  lemma {:induction false} PreReleaseFrom(t: Token, s: string, pre: string, tail: string)
    requires !t.Last() && pre in PRE_SUFFIXES
    ensures
      var x := "_" + pre + tail;
      Lexicographic(Keys(t, s + x), Keys(t, s)) == LESS <==> AcceptsSuffix(t, s)
    decreases Size(t, s)
  {
    var x := "_" + pre + tail;
    var (v, n, rest) := Step(t, s);
    if LastOne(t, s) {
      PreReleaseAtEnd(t, s, pre, tail);
    } else {
      RestStep(t, s + x, s);
      StepBeforeSuffix(t, s, x);
      if !n.Last() { PreReleaseFrom(n, rest, pre, tail); }
      assert AcceptsSuffix(t, s) <==> !n.Last() && AcceptsSuffix(n, rest);
    }
  }

  /** This token uses up the text. */
  predicate LastOne(t: Token, s: string) {
    s == [] || (Scan(t, s).Some? && s[Scan(t, s).value.length..] == [])
  }

  lemma PreReleaseAtEnd(t: Token, s: string, pre: string, tail: string)
    requires !t.Last() && pre in PRE_SUFFIXES && LastOne(t, s)
    ensures
      var x := "_" + pre + tail;
      Lexicographic(Keys(t, s + x), Keys(t, s)) == LESS <==> AcceptsSuffix(t, s)
  {
    var x := "_" + pre + tail;
    DecidedAtEnd(t, s + x, s);
    if s == [] {
      assert s + x == x;
      StepOverSuffix(t, pre, tail);
    } else {
      StepToSuffix(t, s, pre, tail);
    }
  }

  lemma DecidedAtEnd(t: Token, a: string, b: string)
    requires !t.Last() && Step(t, b).1.End?
    ensures
      var (v, n, rest) := Step(t, a);
      Lexicographic(Keys(t, a), Keys(t, b)) ==
        if v != Step(t, b).0 then CompareInts(v, Step(t, b).0) else CompareInts(NextRank(n, rest), 1)
  {
  }

  /** The text is used up: the suffix itself is the next token. */
  lemma StepOverSuffix(t: Token, pre: string, tail: string)
    requires !t.Last() && pre in PRE_SUFFIXES
    ensures
      var x := "_" + pre + tail;
      if t.Suffix? then Step(t, x) == (-1, Invalid, x)
      else if t.Letter? then Step(t, x).0 > 0
      else Step(t, x) == (0, if t.RevisionNo? then Invalid else Suffix, pre + tail)
    ensures Step(Suffix, pre + tail).0 < 0
  {
    var x := "_" + pre + tail;
    assert x[1..] == pre + tail && x[0..] == x;
    NothingInUnderscore(t, x);
    PreSuffixIsNegative(pre, tail);
  }

  /** The last token of the text is followed by the suffix. */
  lemma StepToSuffix(t: Token, s: string, pre: string, tail: string)
    requires !t.Last() && pre in PRE_SUFFIXES && s != [] && LastOne(t, s)
    ensures
      var x, y := "_" + pre + tail, Scan(t, s).value;
      && Step(t, s) == (y.value, End, "")
      && Step(t, s + x) == (y.value,
                            if y.zeros then Digit else if t.RevisionNo? then Invalid else Suffix,
                            if y.zeros then x else pre + tail)
    ensures Step(Suffix, pre + tail).0 < 0
  {
    hide Scan;
    var x, y := "_" + pre + tail, Scan(t, s).value;
    ScanIgnoresUnderscore(t, s, x);
    assert (s + x)[y.length..] == x && x[1..] == pre + tail;
    PreSuffixIsNegative(pre, tail);
  }

  /** A token that is not the last one is read the same way with the suffix behind it. */
  lemma StepBeforeSuffix(t: Token, s: string, x: string)
    requires !t.Last() && x != [] && x[0] == '_'
    requires !LastOne(t, s)
    ensures Step(t, s + x) == (Step(t, s).0, Step(t, s).1, Step(t, s).2 + x)
  {
    ScanIgnoresUnderscore(t, s, x);
    if Scan(t, s).Some? {
      var y := Scan(t, s).value;
      assert (s + x)[y.length..] == s[y.length..] + x;
      NextTokenIgnoresUnderscore(t, s[y.length..], x);
    }
  }

  lemma PreSuffixIsNegative(pre: string, tail: string)
    requires pre in PRE_SUFFIXES
    ensures Step(Suffix, pre + tail).0 < 0
  {
  }

  lemma NothingInUnderscore(t: Token, x: string)
    requires x != [] && x[0] == '_'
    ensures t.Suffix? ==> Scan(t, x).None?
    ensures t.Digit? || t.DigitOrZero? || t.SuffixNo? || t.RevisionNo? ==> Scan(t, x) == Some(Lexeme(0, 0, false))
  {
  }

  lemma PrefixesIgnoreUnderscore(names: seq<string>, s: string, x: string, from: nat)
    requires from <= |names| && forall i | 0 <= i < |names| :: '_' !in names[i]
    requires x != [] && x[0] == '_'
    ensures FirstPrefix(names, s + x, from) == FirstPrefix(names, s, from)
    decreases |names| - from
  {
    if from < |names| {
      var name := names[from];
      if |s| < |name| {
        assert (s + x)[|s|] == '_' && name[|s|] != '_';
      }
      PrefixesIgnoreUnderscore(names, s, x, from + 1);
    }
  }

  lemma ScanIgnoresUnderscore(t: Token, s: string, x: string)
    requires s != [] && x != [] && x[0] == '_'
    ensures Scan(t, s + x) == Scan(t, s)
  {
    hide ZeroRun, DigitRun, FirstPrefix, Number;
    assert (s + x)[0] == s[0];
    if t.Suffix? {
      PrefixesIgnoreUnderscore(PRE_SUFFIXES, s, x, 0);
      PrefixesIgnoreUnderscore(POST_SUFFIXES, s, x, 0);
    } else {
      DigitsIgnoreUnderscore(s, x);
      ZerosIgnoreUnderscore(s, x);
      assert (s + x)[..DigitRun(s)] == s[..DigitRun(s)];
    }
  }

  lemma {:induction false} DigitsIgnoreUnderscore(s: string, x: string)
    requires x != [] && x[0] == '_'
    ensures DigitRun(s + x) == DigitRun(s)
  {
    hide ZeroRun;
    if s == [] {
      assert s + x == x;
    } else {
      assert (s + x)[0] == s[0] && (s + x)[1..] == s[1..] + x;
      DigitsIgnoreUnderscore(s[1..], x);
    }
  }

  lemma {:induction false} ZerosIgnoreUnderscore(s: string, x: string)
    requires x != [] && x[0] == '_'
    ensures ZeroRun(s + x) == ZeroRun(s)
  {
    hide DigitRun;
    if s == [] {
      assert s + x == x;
    } else {
      assert (s + x)[0] == s[0] && (s + x)[1..] == s[1..] + x;
      ZerosIgnoreUnderscore(s[1..], x);
    }
  }

  lemma NextTokenIgnoresUnderscore(t: Token, s: string, x: string)
    requires s != [] && x != [] && x[0] == '_'
    ensures NextToken(t, s + x) == (NextToken(t, s).0, NextToken(t, s).1 + x)
  {
    assert (s + x)[1..] == s[1..] + x;
    if |s| > 1 { assert (s + x)[2..] == s[2..] + x; }
  }
}
