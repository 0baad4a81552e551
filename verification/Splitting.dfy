/** Splitting a text at a separator: apk_blob_split and apk_blob_for_each_segment. */
module Splitting {
  import opened Wrappers

  /** The position of the first `c`, |s| when there is none. */
  function Find(s: string, c: char): (i: nat)
    ensures i <= |s| && (i < |s| ==> s[i] == c)
    ensures forall j | 0 <= j < i :: s[j] != c
  {
    if s == "" || s[0] == c then 0 else 1 + Find(s[1..], c)
  }

  /** The parts before and after the first separator. */
  function Split(s: string, sep: char): (r: Option<(string, string)>)
    ensures r.None? <==> sep !in s
    ensures r.Some? ==> s == r.value.0 + [sep] + r.value.1 && sep !in r.value.0
  {
    var i := Find(s, sep);
    if i == |s| then None else Some((s[..i], s[i + 1..]))
  }

  /** Every separated part in turn, and what is left after the last separator unless it is empty. */
  function Segments(s: string, sep: char): (r: seq<string>)
    decreases |s|
  {
    match Split(s, sep)
    case Some((l, rest)) => [l] + Segments(rest, sep)
    case None => if s == "" then [] else [s]
  }

  /** The text that ends every part with the separator. */
  function Joined(parts: seq<string>, sep: char): string {
    if parts == [] then "" else parts[0] + [sep] + Joined(parts[1..], sep)
  }

  lemma {:induction false} FindAt(l: string, sep: char, rest: string)
    requires sep !in l
    ensures Find(l + [sep] + rest, sep) == |l|
  {
    var s := l + [sep] + rest;
    if l == "" {
      assert s[0] == sep;
    } else {
      assert s[0] == l[0] && s[0] in l;
      assert s[1..] == l[1..] + [sep] + rest;
      FindAt(l[1..], sep, rest);
    }
  }

  lemma SplitAt(l: string, sep: char, rest: string)
    requires sep !in l
    ensures Split(l + [sep] + rest, sep) == Some((l, rest))
  {
    hide Find;
    var s := l + [sep] + rest;
    FindAt(l, sep, rest);
    assert s[..|l|] == l && s[|l| + 1..] == rest;
  }

  lemma SegmentsCons(l: string, sep: char, rest: string)
    requires sep !in l
    ensures Segments(l + [sep] + rest, sep) == [l] + Segments(rest, sep)
  {
    hide Split;
    SplitAt(l, sep, rest);
  }

  lemma {:induction false} SegmentsOfJoined(parts: seq<string>, sep: char, rest: string)
    requires forall i | 0 <= i < |parts| :: sep !in parts[i]
    ensures Segments(Joined(parts, sep) + rest, sep) == parts + Segments(rest, sep)
  {
    hide Segments;
    if parts == [] {
      assert Joined(parts, sep) + rest == rest;
      assert parts + Segments(rest, sep) == Segments(rest, sep);
    } else {
      var more := Joined(parts[1..], sep) + rest;
      assert Joined(parts, sep) + rest == parts[0] + [sep] + more;
      SegmentsCons(parts[0], sep, more);
      SegmentsOfJoined(parts[1..], sep, rest);
      assert parts + Segments(rest, sep) == [parts[0]] + (parts[1..] + Segments(rest, sep));
    }
  }

  lemma SegmentsOfNone(sep: char)
    ensures Segments("", sep) == []
  {
  }

  lemma SegmentWithout(s: string, sep: char)
    requires sep !in s && s != ""
    ensures Segments(s, sep) == [s]
  {
  }
}
