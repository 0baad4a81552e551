/** What the order of versions means for the text of versions: numbers compare as numbers, letters as
    letters, suffixes in their order, whatever common beginning they stand behind. */
module VersionLaws {
  import opened Wrappers
  import opened Version
  import opened VersionOrder

  // ----- Texts -----

  predicate Digits(s: string) { s != "" && forall i | 0 <= i < |s| :: '0' <= s[i] <= '9' }

  /** A number without leading zeros. */
  predicate Decimal(s: string) { Digits(s) && s[0] != '0' }

  predicate Lower(c: char) { 'a' <= c <= 'z' }

  /** Components of digits, separated by points or single letters. */
  predicate Numbered(v: string) {
    && v != "" && '0' <= v[0] <= '9' && '0' <= v[|v| - 1] <= '9'
    && (forall i | 0 <= i < |v| :: '0' <= v[i] <= '9' || v[i] == '.' || Lower(v[i]))
    && forall i | 0 < i < |v| :: '0' <= v[i] <= '9' || '0' <= v[i - 1] <= '9'
  }

  /** What may stand in front of a component. */
  predicate Front(f: string) { f == "" || (f[|f| - 1] == '.' && Numbered(f[..|f| - 1])) }

  /** A text that does not go on with digits. */
  predicate Ends(p: string) { p == "" || !('0' <= p[0] <= '9') }

  /** Numbers by length and then digit by digit. */
  function DecimalOrder(a: string, b: string): int {
    if |a| < |b| then LESS else if |a| > |b| then GREATER else DigitOrder(a, b)
  }

  function DigitOrder(a: string, b: string): int {
    if a == "" || b == "" then EQUAL
    else if a[0] < b[0] then LESS
    else if a[0] > b[0] then GREATER
    else DigitOrder(a[1..], b[1..])
  }

  // ----- The value of digits -----

  lemma Shifted(x: nat, y: nat, p: nat)
    ensures 10 * (x * p + y) == x * (10 * p) + 10 * y
  {
  }

  function Power(n: nat): nat { if n == 0 then 1 else 10 * Power(n - 1) }

  function DigitOf(c: char): nat
    requires '0' <= c <= '9'
  {
    c as nat - '0' as nat
  }

  lemma {:induction false} NumberFromFront(s: string)
    requires Digits(s)
    ensures Number(s) == DigitOf(s[0]) * Power(|s| - 1) + Number(s[1..]) && Number(s[1..]) < Power(|s| - 1)
  {
    if |s| == 1 {
      assert s[..0] == "" && s[1..] == "";
    } else {
      var front, last := s[..|s| - 1], s[|s| - 1];
      NumberFromFront(front);
      assert s[1..][..|s| - 2] == front[1..] && s[1..][|s| - 2] == last && front[0] == s[0];
      Shifted(DigitOf(s[0]), Number(front[1..]), Power(|s| - 2));
    }
  }

  lemma Distributed(x: nat, y: nat, p: nat)
    ensures (x + y) * p == x * p + y * p
  {
  }

  lemma {:induction false} AtLeast(k: nat, p: nat)
    requires k >= 1
    ensures k * p >= p
  {
    Distributed(k - 1, 1, p);
    if k > 1 { AtLeast(k - 1, p); }
  }

  lemma Apart(d: nat, e: nat, x: nat, y: nat, p: nat)
    requires d < e && x < p
    ensures d * p + x < e * p + y
  {
    Distributed(d, e - d, p);
    AtLeast(e - d, p);
  }

  lemma {:induction false} DigitsOrdered(a: string, b: string)
    requires Digits(a) && Digits(b) && |a| == |b|
    ensures DigitOrder(a, b) == CompareInts(Number(a), Number(b)) && (Number(a) == Number(b) ==> a == b)
    decreases |a|
  {
    hide Number;
    NumberFromFront(a);
    NumberFromFront(b);
    var p := Power(|a| - 1);
    if a[0] < b[0] {
      Apart(DigitOf(a[0]), DigitOf(b[0]), Number(a[1..]), Number(b[1..]), p);
    } else if b[0] < a[0] {
      Apart(DigitOf(b[0]), DigitOf(a[0]), Number(b[1..]), Number(a[1..]), p);
    } else {
      assert a == [a[0]] + a[1..] && b == [b[0]] + b[1..];
      if |a| > 1 {
        DigitsOrdered(a[1..], b[1..]);
      } else {
        assert a[1..] == "" && b[1..] == "";
      }
    }
  }

  lemma {:induction false} PowersGrow(m: nat, n: nat)
    requires m < n
    ensures Power(n) >= 10 * Power(m) && Power(m) >= 1
    decreases n
  {
    if n - 1 > m { PowersGrow(m, n - 1); } else if m > 0 { PowersGrow(m - 1, m); }
  }

  lemma DecimalRange(a: string)
    requires Decimal(a)
    ensures Power(|a| - 1) <= Number(a) < 10 * Power(|a| - 1)
  {
    hide Number;
    NumberFromFront(a);
    var d, p := DigitOf(a[0]), Power(|a| - 1);
    AtLeast(d, p);
    Apart(d, 10, Number(a[1..]), 0, p);
  }

  /** The value orders numbers as their texts do. */
  lemma DecimalsOrdered(a: string, b: string)
    requires Decimal(a) && Decimal(b)
    ensures DecimalOrder(a, b) == CompareInts(Number(a), Number(b)) && (DecimalOrder(a, b) == EQUAL <==> a == b)
  {
    hide Number;
    if |a| == |b| {
      DigitsOrdered(a, b);
    } else {
      DecimalRange(a);
      DecimalRange(b);
      if |a| < |b| { PowersGrow(|a| - 1, |b| - 1); } else { PowersGrow(|b| - 1, |a| - 1); }
    }
  }

  // ----- Tokens -----

  lemma {:induction false} RunOfDigits(a: string, p: string)
    requires Ends(p) && forall i | 0 <= i < |a| :: '0' <= a[i] <= '9'
    ensures DigitRun(a + p) == |a|
  {
    if a == "" {
      assert a + p == p;
    } else {
      assert (a + p)[1..] == a[1..] + p;
      RunOfDigits(a[1..], p);
    }
  }

  lemma {:induction false} RunOfZeros(a: string, p: string)
    requires Ends(p)
    ensures ZeroRun(a + p) == ZeroRun(a)
  {
    if a == "" {
      assert a + p == p;
    } else {
      assert (a + p)[0] == a[0] && (a + p)[1..] == a[1..] + p;
      RunOfZeros(a[1..], p);
    }
  }

  predicate NumberToken(t: Token) { t.Digit? || t.DigitOrZero? || t.SuffixNo? || t.RevisionNo? }

  lemma StepNumber(t: Token, a: string, p: string)
    requires NumberToken(t) && Ends(p) && a + p != "" && forall i | 0 <= i < |a| :: '0' <= a[i] <= '9'
    requires t.DigitOrZero? ==> a != "" && a[0] != '0'
    ensures forall i | 0 <= i < |a| :: IsDigit(a[i])
    ensures Step(t, a + p) == if p == "" then (Number(a), End, "") else (Number(a), NextToken(t, p).0, NextToken(t, p).1)
  {
    ScanNumber(t, a, p);
    hide Scan, NextToken;
    assert (a + p)[|a|..] == p;
  }

  lemma ScanNumber(t: Token, a: string, p: string)
    requires NumberToken(t) && Ends(p) && a + p != "" && forall i | 0 <= i < |a| :: '0' <= a[i] <= '9'
    requires t.DigitOrZero? ==> a != "" && a[0] != '0'
    ensures forall i | 0 <= i < |a| :: IsDigit(a[i])
    ensures Scan(t, a + p) == Some(Lexeme(Number(a), |a|, false))
  {
    hide ZeroRun, DigitRun, Number;
    RunOfDigits(a, p);
    assert (a + p)[..|a|] == a;
  }

  lemma StepZeros(a: string, p: string)
    requires Digits(a) && a[0] == '0' && Ends(p) && p != ""
    ensures ZeroRun(a) >= 1 && Step(DigitOrZero, a + p) == (-(ZeroRun(a) as int), Digit, a[ZeroRun(a)..] + p)
  {
    hide ZeroRun, DigitRun, Number, NextToken;
    assert ZeroRun(a) >= 1 by { ZerosAtFront(a); }
    RunOfZeros(a, p);
    assert (a + p)[ZeroRun(a)..] == a[ZeroRun(a)..] + p;
  }

  lemma ZerosAtFront(a: string)
    requires a != "" && a[0] == '0'
    ensures ZeroRun(a) >= 1
  {
  }

  /** Equal tokens are passed over. */
  lemma SameStep(t: Token, a: string, b: string)
    requires !t.Last() && Step(t, a).0 == Step(t, b).0 && Step(t, a).1 == Step(t, b).1 && !Step(t, a).1.Last()
    ensures
      var n := Step(t, a).1;
      Lexicographic(Keys(t, a), Keys(t, b)) == Lexicographic(Keys(n, Step(t, a).2), Keys(n, Step(t, b).2))
  {
    RestStep(t, a, b);
  }

  /** Different values decide. */
  lemma ValuesDecide(t: Token, a: string, b: string)
    requires !t.Last() && Step(t, a).0 != Step(t, b).0
    ensures Lexicographic(Keys(t, a), Keys(t, b)) == CompareInts(Step(t, a).0, Step(t, b).0)
  {
    RestStep(t, a, b);
  }

  /** Or else what comes next. */
  lemma KindsDecide(t: Token, a: string, b: string)
    requires !t.Last() && Step(t, a).0 == Step(t, b).0 && Step(t, a).1 != Step(t, b).1
    ensures
      var x, y := Step(t, a), Step(t, b);
      Lexicographic(Keys(t, a), Keys(t, b)) == CompareInts(NextRank(x.1, x.2), NextRank(y.1, y.2))
  {
    RestStep(t, a, b);
  }

  // ----- Common beginnings -----

  /** What the tokenizer makes of a text behind digits. */
  function Behind(x: string): (Token, string) { NextToken(Digit, x) }

  lemma BehindZero(x: string)
    requires x != "" && Ends(x)
    ensures NextToken(DigitOrZero, x) == Behind(x)
  {
  }

  /** Behind digits, of whatever value, what follows decides. */
  lemma DigitsPassed(t: Token, a: string, x: string, y: string)
    requires (t.Digit? || t.DigitOrZero?) && Digits(a) && x != "" && y != "" && Ends(x) && Ends(y)
    requires Behind(x).0 == Behind(y).0 && !Behind(x).0.Last()
    ensures
      var n := Behind(x).0;
      Lexicographic(Keys(t, a + x), Keys(t, a + y)) == Lexicographic(Keys(n, Behind(x).1), Keys(n, Behind(y).1))
  {
    hide Step, NextToken, Number, ZeroRun, Lexicographic, Keys;
    BehindZero(x);
    BehindZero(y);
    if t.DigitOrZero? && a[0] == '0' {
      StepZeros(a, x);
      StepZeros(a, y);
      SameStep(t, a + x, a + y);
      var b := a[ZeroRun(a)..];
      StepNumber(Digit, b, x);
      StepNumber(Digit, b, y);
      SameStep(Digit, b + x, b + y);
    } else {
      StepNumber(t, a, x);
      StepNumber(t, a, y);
      SameStep(t, a + x, a + y);
    }
  }

  lemma LetterPassed(c: char, x: string, y: string)
    requires Lower(c) && x != "" && y != ""
    requires NextToken(Letter, x).0 == NextToken(Letter, y).0 && !NextToken(Letter, x).0.Last()
    ensures
      var n := NextToken(Letter, x).0;
      Lexicographic(Keys(Letter, [c] + x), Keys(Letter, [c] + y)) ==
      Lexicographic(Keys(n, NextToken(Letter, x).1), Keys(n, NextToken(Letter, y).1))
  {
    assert ([c] + x)[1..] == x && ([c] + y)[1..] == y;
    hide NextToken, Lexicographic, Keys;
    SameStep(Letter, [c] + x, [c] + y);
  }

  /** The first component of digits, and the rest. */
  lemma FirstComponent(v: string) returns (a: string, rest: string)
    requires Numbered(v)
    ensures v == a + rest && Digits(a) && Ends(rest)
    ensures rest != "" ==> |rest| > 1 && (rest[0] == '.' || Lower(rest[0])) && Numbered(rest[1..])
  {
    var n := DigitRun(v);
    assert n >= 1 && forall i | 0 <= i < n :: IsDigit(v[i]);
    hide DigitRun;
    a, rest := v[..n], v[n..];
    if rest != "" {
      assert rest[0] == v[n] && !IsDigit(v[n]) && IsDigit(v[|v| - 1]);
      assert n + 1 < |v|;
      BehindNonDigit(v, n);
    }
  }

  lemma BehindNonDigit(v: string, n: nat)
    requires Numbered(v) && n + 1 < |v| && !('0' <= v[n] <= '9')
    ensures Numbered(v[n..][1..])
  {
    var w := v[n..][1..];
    assert w == v[n + 1..] && w[0] == v[n + 1] && w[|w| - 1] == v[|v| - 1];
    forall i | 0 < i < |w|
      ensures '0' <= w[i] <= '9' || '0' <= w[i - 1] <= '9'
    {
      assert w[i] == v[n + 1 + i] && w[i - 1] == v[n + i];
    }
  }

  lemma {:induction false} CommonBeginning(t: Token, v: string, x: string, y: string)
    requires (t.Digit? || t.DigitOrZero?) && Numbered(v) && x != "" && y != "" && Ends(x) && Ends(y)
    requires Behind(x).0 == Behind(y).0 && !Behind(x).0.Last()
    ensures
      var n := Behind(x).0;
      Lexicographic(Keys(t, v + x), Keys(t, v + y)) == Lexicographic(Keys(n, Behind(x).1), Keys(n, Behind(y).1))
    decreases |v|
  {
    hide Numbered, Lexicographic, Keys;
    var a, rest := FirstComponent(v);
    if rest == "" {
      assert v == a;
      DigitsPassed(t, a, x, y);
    } else {
      var c, w := rest[0], rest[1..];
      assert rest == [c] + w && w != "";
      assert v + x == a + (rest + x) && v + y == a + (rest + y);
      BehindComponent(c, w + x);
      BehindComponent(c, w + y);
      assert rest + x == [c] + (w + x) && rest + y == [c] + (w + y);
      DigitsPassed(t, a, rest + x, rest + y);
      if c == '.' {
        CommonBeginning(DigitOrZero, w, x, y);
      } else {
        BehindLetter(w, x);
        BehindLetter(w, y);
        LetterPassed(c, w + x, w + y);
        CommonBeginning(Digit, w, x, y);
      }
    }
  }

  lemma BehindComponent(c: char, w: string)
    requires c == '.' || Lower(c)
    ensures Ends([c] + w) && Behind([c] + w) == if c == '.' then (DigitOrZero, w) else (Letter, [c] + w)
  {
    assert ([c] + w)[1..] == w;
  }

  lemma BehindLetter(w: string, x: string)
    requires Numbered(w)
    ensures NextToken(Letter, w + x) == (Digit, w + x)
  {
    assert (w + x)[0] == w[0];
  }

  // ----- Numbers -----

  lemma NumbersDecide(t: Token, a: string, p: string, b: string, q: string)
    requires NumberToken(t) && Decimal(a) && Decimal(b) && Ends(p) && Ends(q) && a != b
    ensures Lexicographic(Keys(t, a + p), Keys(t, b + q)) == DecimalOrder(a, b)
  {
    hide Step, NextToken, Number, Lexicographic, Keys, DecimalOrder;
    DecimalsOrdered(a, b);
    StepNumber(t, a, p);
    StepNumber(t, b, q);
    ValuesDecide(t, a + p, b + q);
  }

  /** Where versions first differ in a number, the number decides, behind any common beginning and
      whatever follows: the shorter one is less, and of two of the same length the one with the lesser
      first different digit. */
  lemma NumbersCompare(front: string, a: string, p: string, b: string, q: string)
    requires Front(front) && Decimal(a) && Decimal(b) && Ends(p) && Ends(q) && a != b
    ensures CompareVersions(front + a + p, front + b + q) == DecimalOrder(a, b) != EQUAL
  {
    hide Step, NextToken, Number, Lexicographic, Keys, DecimalOrder, Numbered;
    DecimalsOrdered(a, b);
    assert front + a + p == front + (a + p) && front + b + q == front + (b + q);
    if front == "" {
      assert front + (a + p) == a + p && front + (b + q) == b + q;
      NumbersDecide(Digit, a, p, b, q);
    } else {
      var v := front[..|front| - 1];
      assert front + (a + p) == v + ("." + (a + p)) && front + (b + q) == v + ("." + (b + q));
      BehindComponent('.', a + p);
      BehindComponent('.', b + q);
      CommonBeginning(Digit, v, "." + (a + p), "." + (b + q));
      NumbersDecide(DigitOrZero, a, p, b, q);
    }
  }

  /** So 1.9 is less than 1.10. */
  lemma TenIsAfterNine()
    ensures CompareVersions("1.10", "1.9") == GREATER
  {
    assert "1."[..1] == "1" && "1." + "10" + "" == "1.10" && "1." + "9" + "" == "1.9";
    NumbersCompare("1.", "10", "", "9", "");
  }

  /** A NUL ends a version. */
  lemma NulEnds(front: string, a: string, x: string)
    requires Front(front) && (Decimal(a) || (front == "" && Digits(a)))
    ensures CompareVersions(front + a + "\0" + x, front + a) == EQUAL
  {
    hide Step, NextToken, Number, Lexicographic, Keys, Numbered;
    var p := "\0" + x;
    BehindNul(x);
    assert front + a + "\0" + x == front + (a + p) && a + "" == a;
    if front == "" {
      assert front + (a + p) == a + p && front + a == a;
      StepNumber(Digit, a, p);
      StepNumber(Digit, a, "");
      LastStep(Digit, a + p, a);
    } else {
      var v := front[..|front| - 1];
      assert front + (a + p) == v + ("." + (a + p)) && front + a == v + ("." + a);
      BehindComponent('.', a + p);
      BehindComponent('.', a);
      CommonBeginning(Digit, v, "." + (a + p), "." + a);
      StepNumber(DigitOrZero, a, p);
      StepNumber(DigitOrZero, a, "");
      LastStep(DigitOrZero, a + p, a);
    }
  }

  lemma BehindNul(x: string)
    ensures Ends("\0" + x) && NextToken(Digit, "\0" + x).0 == End && NextToken(DigitOrZero, "\0" + x).0 == End
  {
  }

  lemma LastStep(t: Token, a: string, b: string)
    requires !t.Last() && Step(t, a).0 == Step(t, b).0 && Step(t, a).1 == End && Step(t, b).1 == End
    ensures Lexicographic(Keys(t, a), Keys(t, b)) == EQUAL
  {
    RestStep(t, a, b);
  }

  // ----- Letters -----

  lemma LetterStep(c: char, p: string)
    ensures Step(Letter, [c] + p).0 == c as int
  {
  }

  lemma LettersCompare(v: string, x: char, p: string, y: char, q: string)
    requires Numbered(v) && Lower(x) && Lower(y) && x != y
    ensures CompareVersions(v + [x] + p, v + [y] + q) == if x < y then LESS else GREATER
  {
    hide Step, NextToken, Lexicographic, Keys, Numbered;
    assert v + [x] + p == v + ([x] + p) && v + [y] + q == v + ([y] + q);
    BehindComponent(x, p);
    BehindComponent(y, q);
    CommonBeginning(Digit, v, [x] + p, [y] + q);
    LetterStep(x, p);
    LetterStep(y, q);
    ValuesDecide(Letter, [x] + p, [y] + q);
  }

  // ----- Suffixes -----

  /** The pre-release suffixes, and those of later releases. */
  const SUFFIXES: seq<string> := ["alpha", "beta", "pre", "rc", "cvs", "svn", "git", "hg", "p"]
  const PRE := 4

  /** What may follow a suffix. */
  predicate EndsWord(p: string) { p == "" || !Lower(p[0]) }

  lemma SuffixStep(k: nat, p: string)
    requires k < |SUFFIXES| && EndsWord(p)
    ensures Step(Suffix, SUFFIXES[k] + p).0 == k - PRE
  {
    var s := SUFFIXES[k] + p;
    forall i | 0 <= i < |s|
      ensures s[i] == if i < |SUFFIXES[k]| then SUFFIXES[k][i] else p[i - |SUFFIXES[k]|]
    {
    }
    assert SUFFIXES[k] <= s;
    if k < PRE {
      PreSuffixFound(k, s);
    } else {
      PostSuffixFound(k, p);
    }
  }

  lemma PreSuffixFound(k: nat, s: string)
    requires k < PRE && SUFFIXES[k] <= s
    ensures FirstPrefix(PRE_SUFFIXES, s, 0) == k
  {
    assert PRE_SUFFIXES[k] == SUFFIXES[k];
    assert s[0] == SUFFIXES[k][0];
    assert FirstPrefix(PRE_SUFFIXES, s, 0) <= k by { NotLater(PRE_SUFFIXES, s, 0, k); }
  }

  lemma NotLater(names: seq<string>, s: string, from: nat, k: nat)
    requires from <= k < |names| && names[k] <= s
    ensures FirstPrefix(names, s, from) <= k
    decreases k - from
  {
  }

  lemma PostSuffixFound(k: nat, p: string)
    requires PRE <= k < |SUFFIXES| && EndsWord(p)
    ensures
      var s := SUFFIXES[k] + p;
      FirstPrefix(PRE_SUFFIXES, s, 0) == PRE && FirstPrefix(POST_SUFFIXES, s, 0) == k - PRE
  {
    var s := SUFFIXES[k] + p;
    assert POST_SUFFIXES[k - PRE] == SUFFIXES[k] && s[0] == SUFFIXES[k][0] && SUFFIXES[k] <= s;
    NotLater(POST_SUFFIXES, s, 0, k - PRE);
    assert k == |SUFFIXES| - 1 && |s| > 1 ==> s[1] == p[0];
  }

  lemma BehindUnderscore(w: string)
    ensures Ends("_" + w) && Behind("_" + w) == (Suffix, w) && NextToken(Letter, "_" + w) == (Suffix, w)
  {
    assert ("_" + w)[1..] == w;
  }

  lemma BehindRevision(w: string)
    ensures Ends("-r" + w) && Behind("-r" + w) == (RevisionNo, w) && NextToken(Letter, "-r" + w) == (RevisionNo, w)
  {
    assert ("-r" + w)[2..] == w;
  }

  lemma SuffixesDecide(i: nat, p: string, j: nat, q: string)
    requires i < |SUFFIXES| && j < |SUFFIXES| && i != j && EndsWord(p) && EndsWord(q)
    ensures Lexicographic(Keys(Suffix, SUFFIXES[i] + p), Keys(Suffix, SUFFIXES[j] + q)) == CompareInts(i, j)
  {
    hide Step, Lexicographic, Keys;
    SuffixStep(i, p);
    SuffixStep(j, q);
    ValuesDecide(Suffix, SUFFIXES[i] + p, SUFFIXES[j] + q);
  }

  /** Two different suffixes of a version compare by their place in the list. */
  lemma SuffixesCompare(v: string, i: nat, p: string, j: nat, q: string)
    requires Numbered(v) && i < j < |SUFFIXES| && EndsWord(p) && EndsWord(q)
    ensures CompareVersions(v + "_" + SUFFIXES[i] + p, v + "_" + SUFFIXES[j] + q) == LESS
  {
    hide NextToken, Lexicographic, Keys, Numbered;
    var x, y := SUFFIXES[i] + p, SUFFIXES[j] + q;
    assert v + "_" + SUFFIXES[i] + p == v + ("_" + x) && v + "_" + SUFFIXES[j] + q == v + ("_" + y);
    BehindSuffixes(v, x, y);
    SuffixesDecide(i, p, j, q);
  }

  /** The numbers behind the same suffix compare as numbers. */
  lemma SuffixNumbersCompare(v: string, k: nat, a: string, p: string, b: string, q: string)
    requires Numbered(v) && k < |SUFFIXES| && Decimal(a) && Decimal(b) && Ends(p) && Ends(q) && a != b
    ensures CompareVersions(v + "_" + SUFFIXES[k] + a + p, v + "_" + SUFFIXES[k] + b + q) == DecimalOrder(a, b)
  {
    hide Step, NextToken, Lexicographic, Keys, Numbered, DecimalOrder, CompareVersions;
    var x, y := SUFFIXES[k] + (a + p), SUFFIXES[k] + (b + q);
    assert v + "_" + SUFFIXES[k] + a + p == v + ("_" + x) && v + "_" + SUFFIXES[k] + b + q == v + ("_" + y);
    BehindSuffixes(v, x, y);
    SuffixThenNumber(k, a + p);
    SuffixThenNumber(k, b + q);
    SameStep(Suffix, x, y);
    NumbersDecide(SuffixNo, a, p, b, q);
  }

  lemma BehindSuffixes(v: string, x: string, y: string)
    requires Numbered(v)
    ensures CompareVersions(v + ("_" + x), v + ("_" + y)) == Lexicographic(Keys(Suffix, x), Keys(Suffix, y))
  {
    hide NextToken, Lexicographic, Keys, Numbered;
    BehindUnderscore(x);
    BehindUnderscore(y);
    CommonBeginning(Digit, v, "_" + x, "_" + y);
  }

  lemma SuffixThenNumber(k: nat, w: string)
    requires k < |SUFFIXES| && w != "" && '0' <= w[0] <= '9'
    ensures Step(Suffix, SUFFIXES[k] + w) == (k - PRE, SuffixNo, w)
  {
    SuffixStep(k, w);
    var s := SUFFIXES[k] + w;
    assert s[|SUFFIXES[k]|..] == w;
    if k < PRE {
      assert SUFFIXES[k] <= s;
      PreSuffixFound(k, s);
    } else {
      PostSuffixFound(k, w);
    }
  }

  lemma RevisionsCompare(v: string, a: string, p: string, b: string, q: string)
    requires Numbered(v) && Decimal(a) && Decimal(b) && Ends(p) && Ends(q) && a != b
    ensures CompareVersions(v + "-r" + a + p, v + "-r" + b + q) == DecimalOrder(a, b)
  {
    hide NextToken, Lexicographic, Keys, Numbered, DecimalOrder;
    assert v + "-r" + a + p == v + ("-r" + (a + p)) && v + "-r" + b + q == v + ("-r" + (b + q));
    BehindRevision(a + p);
    BehindRevision(b + q);
    CommonBeginning(Digit, v, "-r" + (a + p), "-r" + (b + q));
    NumbersDecide(RevisionNo, a, p, b, q);
  }

  // ----- Leading zeros -----

  function Nought(n: nat): (s: string)
    ensures |s| == n && forall i | 0 <= i < n :: s[i] == '0'
  {
    seq(n, _ => '0')
  }

  lemma {:induction false} NoughtRun(n: nat, x: string)
    requires x == "" || x[0] != '0'
    ensures ZeroRun(Nought(n) + x) == n
  {
    if n == 0 {
      assert Nought(0) + x == x;
    } else {
      assert (Nought(n) + x)[1..] == Nought(n - 1) + x;
      NoughtRun(n - 1, x);
    }
  }

  lemma NoughtStep(n: nat, x: string)
    requires (x == "" || x[0] != '0') && (n > 0 || Digits(x))
    ensures n > 0 ==> Step(DigitOrZero, Nought(n) + x).0 == -(n as int)
    ensures n == 0 ==> Step(DigitOrZero, Nought(n) + x).0 >= 0
  {
    hide DigitRun, Number, NextToken, ZeroRun;
    if n == 0 {
      assert Nought(0) + x == x;
    } else {
      NoughtRun(n, x);
    }
  }

  /** A component with more leading zeros is less. */
  lemma ZerosCompare(v: string, m: nat, x: string, n: nat, y: string)
    requires Numbered(v) && m > n && (x == "" || x[0] != '0') && (y == "" || y[0] != '0') && (n > 0 || Digits(y))
    ensures CompareVersions(v + "." + Nought(m) + x, v + "." + Nought(n) + y) == LESS
  {
    hide Step, NextToken, Lexicographic, Keys, Numbered, Nought;
    var a, b := Nought(m) + x, Nought(n) + y;
    assert v + "." + Nought(m) + x == v + ("." + a) && v + "." + Nought(n) + y == v + ("." + b);
    BehindComponent('.', a);
    BehindComponent('.', b);
    CommonBeginning(Digit, v, "." + a, "." + b);
    NoughtStep(m, x);
    NoughtStep(n, y);
    ValuesDecide(DigitOrZero, a, b);
  }

  // ----- What follows the last number -----

  datatype Tail =
    | Plain
    | Component(rest: string)
    | LetterAnd(letter: char, rest: string)
    | Revision(rest: string)
    | SuffixAnd(suffix: nat, rest: string)
  {
    predicate Valid() {
      match this
      case LetterAnd(c, _) => Lower(c)
      case SuffixAnd(k, p) => k < |SUFFIXES| && EndsWord(p)
      case _ => true
    }

    function Text(): string
      requires Valid()
    {
      match this
      case Plain => ""
      case Component(p) => "." + p
      case LetterAnd(c, p) => [c] + p
      case Revision(p) => "-r" + p
      case SuffixAnd(k, p) => "_" + (SUFFIXES[k] + p)
    }

    /** Pre-releases come first, then the version itself, and then what is built upon it. */
    function Rank(): nat {
      match this
      case SuffixAnd(k, _) => if k < PRE then 0 else 3
      case Plain => 1
      case Revision(_) => 2
      case LetterAnd(_, _) => 4
      case Component(_) => 5
    }
  }

  /** The token that a text begins with. */
  function FirstToken(x: Tail): Token {
    match x
    case Plain => End
    case Component(_) => DigitOrZero
    case LetterAnd(_, _) => Letter
    case Revision(_) => RevisionNo
    case SuffixAnd(_, _) => Suffix
  }

  lemma TailIs(x: Tail)
    requires x.Valid() && !x.Plain?
    ensures Ends(x.Text()) && x.Text() != "" && Behind(x.Text()).0 == FirstToken(x)
    ensures NextToken(DigitOrZero, x.Text()) == Behind(x.Text())
    ensures x.SuffixAnd? ==>
              Behind(x.Text()).1 == SUFFIXES[x.suffix] + x.rest && Step(Suffix, Behind(x.Text()).1).0 == x.suffix - PRE
  {
    hide NextToken, Step;
    match x {
      case Component(p) => BehindComponent('.', p);
      case LetterAnd(c, p) => BehindComponent(c, p);
      case Revision(p) => BehindRevision(p);
      case SuffixAnd(k, p) =>
        BehindUnderscore(SUFFIXES[k] + p);
        SuffixStep(k, p);
    }
    BehindZero(x.Text());
  }

  /** The step over a number in front of it. */
  lemma StepToTail(t: Token, a: string, x: Tail)
    requires (t.Digit? && Digits(a)) || (t.DigitOrZero? && Decimal(a))
    requires x.Valid()
    ensures
      var s := Step(t, a + x.Text());
      && s.0 == StepValue(a) && s.1 == FirstToken(x)
      && NextRank(s.1, s.2) == (if x.SuffixAnd? && x.suffix < PRE then 0 else 7 - FirstToken(x).Code())
      && (x.SuffixAnd? ==> s.2 == SUFFIXES[x.suffix] + x.rest)
  {
    hide NextToken, Number;
    if !x.Plain? { TailIs(x); }
    StepNumber(t, a, x.Text());
    hide Step;
  }

  function StepValue(a: string): int
    requires Digits(a)
  {
    assert forall i | 0 <= i < |a| :: IsDigit(a[i]);
    Number(a)
  }

  /** Behind a number, of two different kinds of text the one with the higher rank is greater. */
  lemma TailsDecide(t: Token, a: string, x: Tail, y: Tail)
    requires (t.Digit? && Digits(a)) || (t.DigitOrZero? && Decimal(a))
    requires x.Valid() && y.Valid() && x.Rank() < y.Rank()
    ensures Lexicographic(Keys(t, a + x.Text()), Keys(t, a + y.Text())) == LESS
  {
    hide Step, Lexicographic, Keys, NextRank, StepValue;
    StepToTail(t, a, x);
    StepToTail(t, a, y);
    if x.SuffixAnd? && y.SuffixAnd? {
      SameStep(t, a + x.Text(), a + y.Text());
      SuffixesDecide(x.suffix, x.rest, y.suffix, y.rest);
    } else {
      KindsDecide(t, a + x.Text(), a + y.Text());
    }
  }

  /** A version, its pre-releases, and what is built upon it, in their order. */
  lemma KindsCompare(front: string, a: string, x: Tail, y: Tail)
    requires Front(front) && (Decimal(a) || (front == "" && Digits(a)))
    requires x.Valid() && y.Valid() && x.Rank() < y.Rank()
    ensures CompareVersions(front + a + x.Text(), front + a + y.Text()) == LESS
  {
    hide Step, NextToken, Number, Lexicographic, Keys, Numbered;
    var p, q := x.Text(), y.Text();
    assert front + a + p == front + (a + p) && front + a + q == front + (a + q);
    if front == "" {
      assert front + (a + p) == a + p && front + (a + q) == a + q;
      TailsDecide(Digit, a, x, y);
    } else {
      var v := front[..|front| - 1];
      assert front + (a + p) == v + ("." + (a + p)) && front + (a + q) == v + ("." + (a + q));
      BehindComponent('.', a + p);
      BehindComponent('.', a + q);
      CommonBeginning(Digit, v, "." + (a + p), "." + (a + q));
      TailsDecide(DigitOrZero, a, x, y);
    }
  }

  // ----- Which versions are valid -----

  /** The rest of a version is in order. */
  predicate GoesOn(n: Token, rest: string) { n.End? || (!n.Invalid? && EndsWell(n, rest)) }

  lemma ValidStep(t: Token, s: string)
    requires !t.Last()
    ensures EndsWell(t, s) == GoesOn(Step(t, s).1, Step(t, s).2)
  {
  }

  lemma ZerosValid(a: string)
    requires Digits(a) && a[0] == '0'
    ensures EndsWell(DigitOrZero, a)
  {
    hide ZeroRun, Number, DigitRun, NextToken, EndsWell;
    ZerosAtFront(a);
    ValidStep(DigitOrZero, a);
    if ZeroRun(a) < |a| {
      var b := a[ZeroRun(a)..];
      assert b + "" == b;
      StepNumber(Digit, b, "");
      ValidStep(Digit, b);
    }
  }

  lemma DigitsValid(t: Token, a: string, x: string)
    requires (t.Digit? || t.DigitOrZero?) && Digits(a) && Ends(x)
    ensures EndsWell(t, a + x) == (x == "" || GoesOn(Behind(x).0, Behind(x).1))
  {
    hide Step, NextToken, Number, ZeroRun, EndsWell;
    ValidStep(t, a + x);
    if x != "" { BehindZero(x); }
    if t.DigitOrZero? && a[0] == '0' {
      if x == "" {
        assert a + x == a;
        ZerosValid(a);
      } else {
        StepZeros(a, x);
        var b := a[ZeroRun(a)..];
        StepNumber(Digit, b, x);
        ValidStep(Digit, b + x);
      }
    } else {
      StepNumber(t, a, x);
    }
  }

  lemma {:induction false} NumberedValid(t: Token, v: string, x: string)
    requires (t.Digit? || t.DigitOrZero?) && Numbered(v) && Ends(x)
    ensures EndsWell(t, v + x) == (x == "" || GoesOn(Behind(x).0, Behind(x).1))
    decreases |v|
  {
    hide Numbered, Step, NextToken, EndsWell;
    var a, rest := FirstComponent(v);
    if rest == "" {
      assert v == a;
      DigitsValid(t, a, x);
    } else {
      var c, w := rest[0], rest[1..];
      assert v + x == a + (rest + x) && rest + x == [c] + (w + x);
      BehindComponent(c, w + x);
      DigitsValid(t, a, rest + x);
      if c == '.' {
        NumberedValid(DigitOrZero, w, x);
      } else {
        LetterValid(c, w + x);
        BehindLetter(w, x);
        NumberedValid(Digit, w, x);
      }
    }
  }

  lemma LetterValid(c: char, x: string)
    ensures EndsWell(Letter, [c] + x) == (x == "" || GoesOn(NextToken(Letter, x).0, NextToken(Letter, x).1))
  {
    hide NextToken, EndsWell;
    assert ([c] + x)[1..] == x;
    ValidStep(Letter, [c] + x);
  }

  /** A version may end in a number, a letter, a suffix, with a number or without, or a revision. */
  lemma ValidForms(v: string, c: char, k: nat, n: string)
    requires Numbered(v) && Lower(c) && k < |SUFFIXES| && Digits(n)
    ensures IsValid(v) && IsValid(v + [c]) && IsValid(v + "-r" + n)
    ensures IsValid(v + "_" + SUFFIXES[k]) && IsValid(v + "_" + SUFFIXES[k] + n)
  {
    hide Numbered, Step, NextToken, EndsWell;
    assert v + "" == v && [c] + "" == [c];
    NumberedValid(Digit, v, "");
    BehindComponent(c, "");
    NumberedValid(Digit, v, [c]);
    LetterValid(c, "");
    assert v + "-r" + n == v + ("-r" + n) && n + "" == n;
    BehindRevision(n);
    NumberedValid(Digit, v, "-r" + n);
    StepNumber(RevisionNo, n, "");
    ValidStep(RevisionNo, n);
    SuffixesValid(v, k, n);
  }

  lemma SuffixesValid(v: string, k: nat, n: string)
    requires Numbered(v) && k < |SUFFIXES| && Digits(n)
    ensures IsValid(v + "_" + SUFFIXES[k]) && IsValid(v + "_" + SUFFIXES[k] + n)
  {
    hide Numbered, Step, NextToken, EndsWell;
    var x, y := SUFFIXES[k], SUFFIXES[k] + n;
    assert v + "_" + SUFFIXES[k] == v + ("_" + x) && v + "_" + SUFFIXES[k] + n == v + ("_" + y);
    BehindUnderscore(x);
    BehindUnderscore(y);
    NumberedValid(Digit, v, "_" + x);
    NumberedValid(Digit, v, "_" + y);
    ValidStep(Suffix, x);
    ValidStep(Suffix, y);
    SuffixAlone(k);
    SuffixThenNumber(k, n);
    assert n + "" == n;
    StepNumber(SuffixNo, n, "");
    ValidStep(SuffixNo, n);
  }

  lemma SuffixAlone(k: nat)
    requires k < |SUFFIXES|
    ensures Step(Suffix, SUFFIXES[k]).1 == End
  {
    var s := SUFFIXES[k] + "";
    assert s == SUFFIXES[k] && s[|s|..] == "";
    if k < PRE { PreSuffixFound(k, s); } else { PostSuffixFound(k, ""); }
  }

  /** And not in a suffix that is none, two letters, or any other character. */
  lemma InvalidForms(v: string, w: string, c: char, d: char, p: string)
    requires Numbered(v) && Lower(c) && Lower(d)
    ensures w != "" && (forall k | 0 <= k < |SUFFIXES| :: !(SUFFIXES[k] <= w)) ==> !IsValid(v + "_" + w)
    ensures !IsValid(v + [c] + [d] + p)
  {
    hide Numbered, NextToken, EndsWell;
    assert v + "_" + w == v + ("_" + w);
    BehindUnderscore(w);
    NumberedValid(Digit, v, "_" + w);
    ValidStep(Suffix, w);
    if w != "" && forall k | 0 <= k < |SUFFIXES| :: !(SUFFIXES[k] <= w) { UnknownSuffix(w); }
    hide Step;
    assert v + [c] + [d] + p == v + ([c] + ([d] + p));
    BehindComponent(c, [d] + p);
    NumberedValid(Digit, v, [c] + ([d] + p));
    LetterValid(c, [d] + p);
    SecondLetter(d, p);
  }

  lemma UnknownSuffix(w: string)
    requires w != "" && forall k | 0 <= k < |SUFFIXES| :: !(SUFFIXES[k] <= w)
    ensures Step(Suffix, w).1 == Invalid
  {
    forall k | 0 <= k < |PRE_SUFFIXES|
      ensures !(PRE_SUFFIXES[k] <= w)
    {
      assert PRE_SUFFIXES[k] == SUFFIXES[k];
    }
    forall k | 0 <= k < |POST_SUFFIXES|
      ensures !(POST_SUFFIXES[k] <= w)
    {
      assert POST_SUFFIXES[k] == SUFFIXES[k + PRE];
    }
  }

  lemma SecondLetter(d: char, p: string)
    requires Lower(d)
    ensures NextToken(Letter, [d] + p).0 == Invalid
  {
  }
}
