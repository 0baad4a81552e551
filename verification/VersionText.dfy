/** A valid version contains no character that means something around it in a dependency. */
module VersionText {
  import opened Version

  predicate Plain(c: char) { IsDigit(c) || IsLower(c) || c == '.' || c == '_' || c == '-' }

  predicate AllPlain(s: string) { forall i | 0 <= i < |s| :: Plain(s[i]) }

  lemma SuffixesArePlain()
    ensures forall i | 0 <= i < |PRE_SUFFIXES| :: AllPlain(PRE_SUFFIXES[i])
    ensures forall i | 0 <= i < |POST_SUFFIXES| :: AllPlain(POST_SUFFIXES[i])
  {
  }

  lemma ScanIsPlain(t: Token, s: string)
    requires s != "" && Scan(t, s).Some? && (t.Letter? ==> IsLower(s[0]))
    ensures AllPlain(s[..Scan(t, s).value.length])
  {
    SuffixesArePlain();
  }

  lemma NextTokenIsPlain(t: Token, s: string)
    requires s != "" && s[0] != '\0' && !NextToken(t, s).0.Invalid?
    ensures !NextToken(t, s).0.End?
    ensures
      var (n, rest) := NextToken(t, s);
      AllPlain(s[..|s| - |rest|]) && s == s[..|s| - |rest|] + rest && (n.Letter? ==> rest != "" && IsLower(rest[0]))
  {
  }

  /** What a version is for the tokenizer, which ends at a NUL. */
  function UpToNul(s: string): (r: string)
    ensures r <= s && '\0' !in r && (r == s || s[|r|] == '\0')
  {
    if s == "" || s[0] == '\0' then "" else [s[0]] + UpToNul(s[1..])
  }

  lemma {:induction false} UpToNulBehind(head: string, rest: string)
    requires AllPlain(head)
    ensures UpToNul(head + rest) == head + UpToNul(rest)
  {
    if head == "" {
      assert head + rest == rest;
    } else {
      assert (head + rest)[0] == head[0] && (head + rest)[1..] == head[1..] + rest;
      UpToNulBehind(head[1..], rest);
    }
  }

  lemma {:induction false} EndsWellIsPlain(t: Token, s: string)
    requires !t.Last() && EndsWell(t, s) && (t.Letter? && s != "" ==> IsLower(s[0]))
    ensures AllPlain(UpToNul(s))
    decreases Size(t, s)
  {
    hide Scan, NextToken, UpToNul;
    if s != "" {
      ScanIsPlain(t, s);
      var x := Scan(t, s).value;
      var rest := s[x.length..];
      assert s == s[..x.length] + rest;
      UpToNulBehind(s[..x.length], rest);
      if rest == "" || rest[0] == '\0' {
        NothingUpToNul(rest);
      } else if x.zeros {
        EndsWellIsPlain(Digit, rest);
      } else {
        var (n, rest') := NextToken(t, rest);
        NextTokenIsPlain(t, rest);
        UpToNulBehind(rest[..|rest| - |rest'|], rest');
        EndsWellIsPlain(n, rest');
      }
    } else {
      NothingUpToNul(s);
    }
  }

  lemma NothingUpToNul(s: string)
    requires s == "" || s[0] == '\0'
    ensures UpToNul(s) == ""
  {
  }

  lemma ValidIsPlain(v: string)
    requires IsValid(v)
    ensures AllPlain(UpToNul(v))
  {
    EndsWellIsPlain(Digit, v);
  }

  /** The same for versions without a NUL. */
  lemma ValidTextIsPlain(v: string)
    requires IsValid(v) && '\0' !in v
    ensures forall c | c in v :: Plain(c)
  {
    ValidIsPlain(v);
    assert UpToNul(v) == v;
  }
}
