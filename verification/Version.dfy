/** Package versions: the tokenizer and comparator of apk-tools/src/version.c. */
module Version {
  import opened Wrappers

  // The three outcomes are bits, so that a dependency can hold a mask of accepted outcomes.
  const EQUAL := 1
  const LESS := 2
  const GREATER := 4
  const ANY := 7

  /** The outcomes that a dependency accepts: none for a conflict, all when no version is asked for. */
  type Mask = m: nat | m < 8

  const CONFLICT: Mask := 0
  const REQUIRE: Mask := 7

  datatype Token = Invalid | DigitOrZero | Digit | Letter | Suffix | SuffixNo | RevisionNo | End {
    /** The position of the token in the source's enumeration. */
    function Code(): int {
      match this
      case Invalid => -1
      case DigitOrZero => 0
      case Digit => 1
      case Letter => 2
      case Suffix => 3
      case SuffixNo => 4
      case RevisionNo => 5
      case End => 6
    }

    predicate Last() { End? || Invalid? }
  }

  const PRE_SUFFIXES: seq<string> := ["alpha", "beta", "pre", "rc"]
  const POST_SUFFIXES: seq<string> := ["cvs", "svn", "git", "hg", "p"]

  predicate IsDigit(c: char) { '0' <= c <= '9' }
  predicate IsLower(c: char) { 'a' <= c <= 'z' }

  /** What follows a token of type `t` when `s` is left: its type, and `s` without the separator. */
  function NextToken(t: Token, s: string): (r: (Token, string))
    ensures |r.1| <= |s|
    ensures !r.0.Last() && |r.1| == |s| ==>
              || (r.0.Letter? && (t.Digit? || t.DigitOrZero?))
              || (r.0.Digit? && t.Letter?)
              || (r.0.SuffixNo? && t.Suffix?)
  {
    var (n, rest) :=
      if s == [] || s[0] == '\0' then (End, s)
      else if (t.Digit? || t.DigitOrZero?) && IsLower(s[0]) then (Letter, s)
      else if t.Letter? && IsDigit(s[0]) then (Digit, s)
      else if t.Suffix? && IsDigit(s[0]) then (SuffixNo, s)
      else if s[0] == '.' then (DigitOrZero, s[1..])
      else if s[0] == '_' then (Suffix, s[1..])
      else if s[0] == '-' && |s| > 1 && s[1] == 'r' then (RevisionNo, s[2..])
      else (Invalid, s[1..]);
    var allowed := (n.DigitOrZero? && t.Digit?) || (n.Suffix? && t.SuffixNo?) || (n.Digit? && t.Letter?);
    (if n.Code() < t.Code() && !allowed then Invalid else n, rest)
  }

  /** The number of leading '0' characters. */
  function ZeroRun(s: string): (n: nat)
    ensures n <= |s| && (n < |s| ==> s[n] != '0')
    ensures forall i | 0 <= i < n :: s[i] == '0'
  {
    if s != [] && s[0] == '0' then 1 + ZeroRun(s[1..]) else 0
  }

  /** The number of leading digits. */
  function DigitRun(s: string): (n: nat)
    ensures n <= |s| && (n < |s| ==> !IsDigit(s[n]))
    ensures forall i | 0 <= i < n :: IsDigit(s[i])
  {
    if s != [] && IsDigit(s[0]) then 1 + DigitRun(s[1..]) else 0
  }

  /** The decimal number written by `s`. */
  function Number(s: string): (v: nat)
    requires forall i | 0 <= i < |s| :: IsDigit(s[i])
  {
    if s == [] then 0 else assert IsDigit(s[|s| - 1]); 10 * Number(s[..|s| - 1]) + (s[|s| - 1] as int - '0' as int)
  }

  /** The first of `names[from..]` that `s` starts with, |names| when there is none. */
  function FirstPrefix(names: seq<string>, s: string, from: nat): (k: nat)
    requires from <= |names|
    ensures from <= k <= |names| && (k < |names| ==> names[k] <= s)
    ensures forall i | from <= i < k :: !(names[i] <= s)
    decreases |names| - from
  {
    if from == |names| || names[from] <= s then from else FirstPrefix(names, s, from + 1)
  }

  /** The text of a token: its value, its length and whether it was a run of leading zeros. */
  datatype Lexeme = Lexeme(value: int, length: nat, zeros: bool)

  function Scan(t: Token, s: string): (r: Option<Lexeme>)
    requires s != []
    ensures r.Some? ==> r.value.length <= |s| && (r.value.zeros ==> t.DigitOrZero?)
    ensures r.Some? && (t.Letter? || t.Suffix? || r.value.zeros) ==> r.value.length > 0
  {
    match t
    case Letter => Some(Lexeme(s[0] as int, 1, false))
    case Suffix =>
      var pre := FirstPrefix(PRE_SUFFIXES, s, 0);
      var post := FirstPrefix(POST_SUFFIXES, s, 0);
      if pre < |PRE_SUFFIXES| then Some(Lexeme(pre - |PRE_SUFFIXES|, |PRE_SUFFIXES[pre]|, false))
      else if post < |POST_SUFFIXES| then Some(Lexeme(post, |POST_SUFFIXES[post]|, false))
      else None
    case Invalid => None
    case End => None
    case _ =>
      if t.DigitOrZero? && s[0] == '0' then Some(Lexeme(-(ZeroRun(s) as int), ZeroRun(s), true))
      else Some(Lexeme(Number(s[..DigitRun(s)]), DigitRun(s), false))
  }

  /** Bounds the tokens that are left: a digit token may be empty, but then a letter follows. */
  function Size(t: Token, s: string): nat {
    2 * |s| + if t.Digit? || t.DigitOrZero? then 1 else 0
  }

  /** One token: its value, the type of the next one and the text that is left. */
  function Step(t: Token, s: string): (r: (int, Token, string))
    ensures !t.Last() && !r.1.Last() ==> Size(r.1, r.2) < Size(t, s)
    ensures t.Suffix? && r.0 < 0 ==> s != []
  {
    if s == [] then (0, End, s)
    else match Scan(t, s)
      case None => (-1, Invalid, s)
      case Some(x) =>
        var rest := s[x.length..];
        if rest == [] then (x.value, End, rest)
        else if x.zeros then (x.value, Digit, rest)
        else var (n, rest') := NextToken(t, rest); (x.value, n, rest')
  }

  // ----- The order that the comparator is meant to compute -----

  /** A token's value and what comes after it, as two numbers that are compared in turn. */
  datatype Key = Key(value: int, next: int)

  /** Pre-release suffix < end < revision < suffix number < other suffix < letter < digits < invalid. */
  function NextRank(t: Token, rest: string): int {
    if t.Suffix? && Step(t, rest).0 < 0 then 0 else 7 - t.Code()
  }

  function Keys(t: Token, s: string): (ks: seq<Key>)
    requires !t.Last()
    ensures ks != []
    decreases Size(t, s)
  {
    var (v, n, rest) := Step(t, s);
    [Key(v, NextRank(n, rest))] + if n.Last() then [] else Keys(n, rest)
  }

  function CompareInts(x: int, y: int): int {
    if x < y then LESS else if x > y then GREATER else EQUAL
  }

  function CompareKeys(x: Key, y: Key): int {
    if x.value != y.value then CompareInts(x.value, y.value) else CompareInts(x.next, y.next)
  }

  function Lexicographic(xs: seq<Key>, ys: seq<Key>): int {
    if xs == [] || ys == [] then CompareInts(|xs|, |ys|)
    else if xs[0] != ys[0] then CompareKeys(xs[0], ys[0])
    else Lexicographic(xs[1..], ys[1..])
  }

  /** The token list of a whole version. */
  function VersionKeys(s: string): (ks: seq<Key>) { Keys(Digit, s) }

  /** None is the NULL version: equal to itself and every outcome at once against the others. */
  function Compare(a: Option<string>, b: Option<string>): (r: int)
    ensures r in {EQUAL, LESS, GREATER, ANY} && (r == ANY <==> a.None? != b.None?)
  {
    if a.None? && b.None? then EQUAL
    else if a.None? || b.None? then ANY
    else CompareVersions(a.value, b.value)
  }

  function CompareVersions(a: string, b: string): (r: int)
    ensures r in {EQUAL, LESS, GREATER}
  {
    LexicographicOutcome(VersionKeys(a), VersionKeys(b));
    Lexicographic(VersionKeys(a), VersionKeys(b))
  }

  lemma LexicographicOutcome(xs: seq<Key>, ys: seq<Key>)
    ensures Lexicographic(xs, ys) in {EQUAL, LESS, GREATER}
    ensures Lexicographic(xs, ys) == EQUAL <==> xs == ys
  {
  }

  // ----- The code -----

  method ReadZeros(s: string) returns (i: nat)
    ensures i == ZeroRun(s)
  {
    i := 0;
    while i < |s| && s[i] == '0'
      invariant i <= |s| && i + ZeroRun(s[i..]) == ZeroRun(s)
    {
      i := i + 1;
    }
  }

  method ReadNumber(s: string) returns (v: nat, i: nat)
    ensures i == DigitRun(s) && v == Number(s[..i])
  {
    v, i := 0, 0;
    while i < |s| && IsDigit(s[i])
      invariant i <= |s| && i + DigitRun(s[i..]) == DigitRun(s)
      invariant v == Number(s[..i])
    {
      assert s[..i + 1][..i] == s[..i];
      v := v * 10 + (s[i] as int - '0' as int);
      i := i + 1;
    }
  }

  method FindPrefix(names: seq<string>, s: string) returns (k: nat)
    ensures k == FirstPrefix(names, s, 0)
  {
    k := 0;
    while k < |names| && !(names[k] <= s)
      invariant k <= |names| && FirstPrefix(names, s, k) == FirstPrefix(names, s, 0)
    {
      k := k + 1;
    }
  }

  /** The text of one token. */
  method ReadLexeme(t: Token, s: string) returns (r: Option<Lexeme>)
    requires s != ""
    ensures r == Scan(t, s)
  {
    hide ZeroRun, DigitRun, Number, FirstPrefix;
    if t.DigitOrZero? && s[0] == '0' {
      var i := ReadZeros(s);
      var v: int := -(i as int);
      r := Some(Lexeme(v, i, true));
    } else if t.DigitOrZero? || t.Digit? || t.SuffixNo? || t.RevisionNo? {
      var v, i := ReadNumber(s);
      r := Some(Lexeme(v, i, false));
    } else if t.Letter? {
      r := Some(Lexeme(s[0] as int, 1, false));
    } else if t.Suffix? {
      r := ReadSuffix(s);
    } else {
      r := None;
    }
  }

  method ReadSuffix(s: string) returns (r: Option<Lexeme>)
    requires s != ""
    ensures r == Scan(Suffix, s)
  {
    hide FirstPrefix;
    var k := FindPrefix(PRE_SUFFIXES, s);
    if k < |PRE_SUFFIXES| { return Some(Lexeme(k - |PRE_SUFFIXES|, |PRE_SUFFIXES[k]|, false)); }
    k := FindPrefix(POST_SUFFIXES, s);
    return if k < |POST_SUFFIXES| then Some(Lexeme(k, |POST_SUFFIXES[k]|, false)) else None;
  }

  method GetToken(t: Token, s: string) returns (v: int, t': Token, s': string)
    ensures (v, t', s') == Step(t, s)
  {
    hide Scan, NextToken;
    if |s| == 0 { return 0, End, s; }
    var lexeme := ReadLexeme(t, s);
    if lexeme.None? { return -1, Invalid, s; }
    v, s' := lexeme.value.value, s[lexeme.value.length..];
    if |s'| == 0 {
      t' := End;
    } else if lexeme.value.zeros {
      t' := Digit;
    } else {
      var next := NextToken(t, s');
      t', s' := next.0, next.1;
    }
  }

  method CompareBlob(a: Option<string>, b: Option<string>) returns (r: int)
    ensures r == Compare(a, b)
  {
    if a.None? || b.None? {
      return if a.None? && b.None? then EQUAL else ANY;
    }
    var at, bt, av, bv, as', bs := Digit, Digit, 0, 0, a.value, b.value;
    // Once a round has been made the outcome is decided by its values, then by what follows.
    while at == bt && !at.Last() && av == bv
      invariant Compare(a, b) == Rest(av, at, as', bv, bt, bs)
      decreases !at.Last(), Size(at, as')
    {
      RestStep(at, as', bs);
      av, at, as' := GetToken(at, as');
      bv, bt, bs := GetToken(bt, bs);
    }
    if av < bv { return LESS; }
    if av > bv { return GREATER; }
    if at == bt { return EQUAL; }
    if at.Suffix? {
      var x, _, _ := GetToken(at, as');
      if x < 0 { return LESS; }
    }
    if bt.Suffix? {
      var x, _, _ := GetToken(bt, bs);
      if x < 0 { return GREATER; }
    }
    if at.Code() > bt.Code() { return LESS; }
    if bt.Code() > at.Code() { return GREATER; }
    return EQUAL;
  }

  /** What is still to be decided when both sides have just read one token. */
  ghost function Rest(av: int, at: Token, a: string, bv: int, bt: Token, b: string): int {
    if av != bv then CompareInts(av, bv)
    else if at != bt then CompareInts(NextRank(at, a), NextRank(bt, b))
    else if at.Last() then EQUAL
    else Lexicographic(Keys(at, a), Keys(bt, b))
  }

  lemma RestStep(t: Token, a: string, b: string)
    requires !t.Last()
    ensures
      var (av, at, a') := Step(t, a);
      var (bv, bt, b') := Step(t, b);
      Lexicographic(Keys(t, a), Keys(t, b)) == Rest(av, at, a', bv, bt, b')
  {
    hide Step;
    var (av, at, a') := Step(t, a);
    var (bv, bt, b') := Step(t, b);
    var x, xs := Key(av, NextRank(at, a')), if at.Last() then [] else Keys(at, a');
    var y, ys := Key(bv, NextRank(bt, b')), if bt.Last() then [] else Keys(bt, b');
    assert Keys(t, a) == [x] + xs && Keys(t, b) == [y] + ys;
    LexicographicCons(x, xs, y, ys);
  }

  lemma LexicographicCons(x: Key, xs: seq<Key>, y: Key, ys: seq<Key>)
    ensures Lexicographic([x] + xs, [y] + ys) == if x != y then CompareKeys(x, y) else Lexicographic(xs, ys)
  {
  }

  method Validate(s: string) returns (ok: bool)
    ensures ok == IsValid(s)
  {
    var t, rest, v := Digit, s, 0;
    while !t.Last()
      invariant IsValid(s) == if t.Last() then t.End? else EndsWell(t, rest)
      decreases !t.Last(), Size(t, rest)
    {
      v, t, rest := GetToken(t, rest);
    }
    ok := t.End?;
  }

  /** The tokens run to the end of the text without meeting an invalid one. */
  predicate EndsWell(t: Token, s: string)
    requires !t.Last()
    decreases Size(t, s)
  {
    var (_, n, rest) := Step(t, s);
    n.End? || (!n.Invalid? && EndsWell(n, rest))
  }

  predicate IsValid(s: string) { EndsWell(Digit, s) }
}
