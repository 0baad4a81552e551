/** Dependency lists as text: apk_dep_from_blob, apk_deps_parse, apk_blob_push_dep and
    apk_deps_write of apk-tools/src/package.c. */
module Dependencies {
  import opened Wrappers
  import opened Version
  import opened VersionText
  import opened CodecBuffer
  import opened Splitting
  import opened Streams

  const BOTH_WAYS: Mask := LESS + GREATER

  datatype Dep = Dep(name: string, mask: Mask, version: Option<string>)

  predicate IsOp(c: char) { c == '<' || c == '>' || c == '=' }

  /** The length of the longest prefix without, or with only, comparison characters. */
  function OpFree(s: string): (i: nat)
    ensures i <= |s| && (i < |s| ==> IsOp(s[i])) && forall j | 0 <= j < i :: !IsOp(s[j])
  {
    if s == "" || IsOp(s[0]) then 0 else 1 + OpFree(s[1..])
  }

  function OpRun(s: string): (i: nat)
    ensures i <= |s| && (i < |s| ==> !IsOp(s[i])) && forall j | 0 <= j < i :: IsOp(s[j])
  {
    if s == "" || !IsOp(s[0]) then 0 else 1 + OpRun(s[1..])
  }

  /** The bits that a run of comparison characters sets, in any order and number. */
  function OpMask(ops: string): (m: Mask) {
    var less := if '<' in ops then LESS else 0;
    var greater := if '>' in ops then GREATER else 0;
    var equal := if '=' in ops then EQUAL else 0;
    less + greater + equal
  }

  /** None stands for the source's -EINVAL. */
  function DepFromBlob(blob: string): (r: Option<Dep>)
    requires blob != ""
  {
    var conflict := blob[0] == '!';
    var s := if conflict then blob[1..] else blob;
    var i := OpFree(s);
    if i == |s| then Some(Dep(s, if conflict then CONFLICT else REQUIRE, None))
    else if conflict then None
    else
      var k := i + OpRun(s[i..]);
      var mask := OpMask(s[i..k]);
      if k == |s| || mask == BOTH_WAYS || mask == REQUIRE || !IsValid(s[k..]) then None
      else Some(Dep(s[..i], mask, Some(s[k..])))
  }

  /** Parses part after part; the rest of the list is dropped at the first one that is no dependency. */
  function DepsOfParts(parts: seq<string>): seq<Dep> {
    if parts == [] then []
    else if parts[0] == "" then DepsOfParts(parts[1..])
    else match DepFromBlob(parts[0])
      case None => []
      case Some(d) => [d] + DepsOfParts(parts[1..])
  }

  function ParseDeps(blob: string): seq<Dep> {
    DepsOfParts(Segments(
      if blob != "" && blob[|blob| - 1] == '\n' then blob[..|blob| - 1] else blob, ' '))
  }

  function OpString(m: Mask): string {
    if m == LESS then "<"
    else if m == LESS + EQUAL then "<="
    else if m == EQUAL then "="
    else if m == GREATER + EQUAL then ">="
    else if m == GREATER then ">"
    else "?"
  }

  function DepText(d: Dep): string {
    if d.mask == CONFLICT then "!" + d.name
    else if d.mask == REQUIRE then d.name
    else d.name + OpString(d.mask) + if d.version.Some? then d.version.value else ""
  }

  function DepsText(deps: seq<Dep>): string {
    if deps == [] then ""
    else if |deps| == 1 then DepText(deps[0])
    else DepText(deps[0]) + " " + DepsText(deps[1..])
  }

  // ----- Round trip -----

  /** A dependency that a parse can produce. */
  predicate WellFormed(d: Dep) {
    && (forall c | c in d.name :: !IsOp(c))
    && (d.mask == REQUIRE ==> d.name != "")
    && (d.mask != CONFLICT && d.name != "" ==> d.name[0] != '!')
    && d.mask != BOTH_WAYS
    && (d.version.Some? <==> d.mask != CONFLICT && d.mask != REQUIRE)
    && (d.version.Some? ==> d.version.value != "" && IsValid(d.version.value))
  }

  /** One that a list can hold: no blank, newline or NUL inside. */
  predicate Legal(d: Dep) {
    && WellFormed(d) && (forall c | c in d.name :: c != ' ' && c != '\n')
    && (d.version.Some? ==> '\0' !in d.version.value)
  }

  lemma {:induction false} OpFreeOf(name: string, rest: string)
    requires (forall c | c in name :: !IsOp(c)) && (rest == "" || IsOp(rest[0]))
    ensures OpFree(name + rest) == |name|
  {
    if name == "" {
      assert name + rest == rest;
    } else {
      assert name[0] in name && (name + rest)[1..] == name[1..] + rest;
      OpFreeOf(name[1..], rest);
    }
  }

  lemma {:induction false} OpRunOf(op: string, rest: string)
    requires (forall i | 0 <= i < |op| :: IsOp(op[i])) && rest != "" && !IsOp(rest[0])
    ensures OpRun(op + rest) == |op|
  {
    if op == "" {
      assert op + rest == rest;
    } else {
      assert (op + rest)[1..] == op[1..] + rest;
      OpRunOf(op[1..], rest);
    }
  }

  lemma OpStringMask(m: Mask)
    requires m != CONFLICT && m != REQUIRE && m != BOTH_WAYS
    ensures OpString(m) != "" && OpMask(OpString(m)) == m && forall i | 0 <= i < |OpString(m)| :: IsOp(OpString(m)[i])
  {
  }

  /** Printing and parsing give the dependency back. */
  lemma DepRoundTrip(d: Dep)
    requires WellFormed(d)
    ensures DepText(d) != "" && DepFromBlob(DepText(d)) == Some(d)
  {
    if d.mask == CONFLICT {
      assert DepText(d)[1..] == d.name;
      OpFreeOf(d.name, "");
      assert d.name + "" == d.name;
    } else if d.mask == REQUIRE {
      OpFreeOf(d.name, "");
      assert d.name + "" == d.name;
    } else {
      ComparisonRoundTrip(d);
    }
  }

  lemma ComparisonRoundTrip(d: Dep)
    requires WellFormed(d) && d.mask != CONFLICT && d.mask != REQUIRE
    ensures DepText(d) != "" && DepFromBlob(DepText(d)) == Some(d)
  {
    hide OpFree, OpRun, OpMask, OpString, IsValid, DepFromBlob;
    var op, v := OpString(d.mask), d.version.value;
    OpStringMask(d.mask);
    ValidStarts(v);
    ReadsComparison(d.name, op, v);
  }

  /** A version does not begin with a comparison. */
  lemma ValidStarts(v: string)
    requires IsValid(v) && v != ""
    ensures !IsOp(v[0])
  {
    hide EndsWell;
    ValidIsPlain(v);
    if v[0] != '\0' { assert UpToNul(v)[0] == v[0]; }
  }

  /** The text of one in a list has no blank and does not end the line. */
  lemma LegalText(d: Dep)
    requires Legal(d)
    ensures DepText(d) != "" && ' ' !in DepText(d) && DepText(d)[|DepText(d)| - 1] != '\n'
  {
    hide IsValid, OpString;
    if d.mask != CONFLICT && d.mask != REQUIRE {
      var v := d.version.value;
      OpStringMask(d.mask);
      ValidTextIsPlain(v);
      assert v[|v| - 1] in v;
      NoBlank(d.name, OpString(d.mask), v);
    } else {
      assert d.name != "" ==> d.name[|d.name| - 1] in d.name;
    }
  }

  lemma NoBlank(name: string, op: string, v: string)
    requires ' ' !in name && (forall i | 0 <= i < |op| :: IsOp(op[i])) && v != "" && forall c | c in v :: Plain(c)
    ensures ' ' !in name + op + v && (name + op + v)[|name + op + v| - 1] != '\n'
  {
    var s := name + op + v;
    assert v[|v| - 1] in v && s[|s| - 1] == v[|v| - 1];
  }

  lemma ReadsComparison(name: string, op: string, v: string)
    requires forall c | c in name :: !IsOp(c)
    requires op != "" && (forall i | 0 <= i < |op| :: IsOp(op[i])) && OpMask(op) != BOTH_WAYS && OpMask(op) != REQUIRE
    requires v != "" && !IsOp(v[0]) && IsValid(v) && (name != "" ==> name[0] != '!')
    ensures DepFromBlob(name + op + v) == Some(Dep(name, OpMask(op), Some(v)))
  {
    hide OpFree, OpRun, OpMask, IsValid;
    var s := name + op + v;
    assert s == name + (op + v) && (op + v)[0] == op[0];
    OpFreeOf(name, op + v);
    OpRunOf(op, v);
    var k := |name| + |op|;
    assert s[|name|..] == op + v && s[..|name|] == name && s[|name|..k] == op && s[k..] == v;
    assert s[0] != '!' by {
      if name == "" { assert s[0] == op[0]; } else { assert s[0] == name[0]; }
    }
  }

  lemma {:induction false} PartsRoundTrip(deps: seq<Dep>)
    requires forall i | 0 <= i < |deps| :: Legal(deps[i])
    ensures DepsOfParts(Segments(DepsText(deps), ' ')) == deps
    ensures deps != [] ==> DepsText(deps) != "" && DepsText(deps)[|DepsText(deps)| - 1] != '\n'
  {
    hide DepFromBlob, DepText, Legal, Segments;
    if deps == [] {
      SegmentsOfNone(' ');
    } else {
      LegalIsWellFormed(deps[0]);
      DepRoundTrip(deps[0]);
      LegalText(deps[0]);
      var first := DepText(deps[0]);
      if |deps| == 1 {
        SegmentWithout(first, ' ');
      } else {
        var more := DepsText(deps[1..]);
        PartsRoundTrip(deps[1..]);
        assert DepsText(deps) == first + [' '] + more;
        SegmentsCons(first, ' ', more);
        assert ([first] + Segments(more, ' '))[1..] == Segments(more, ' ');
      }
      assert deps == [deps[0]] + deps[1..];
    }
  }

  /** A written list reads back as the same list, with or without a final newline. */
  lemma DepsRoundTrip(deps: seq<Dep>)
    requires forall i | 0 <= i < |deps| :: Legal(deps[i])
    ensures ParseDeps(DepsText(deps)) == deps && ParseDeps(DepsText(deps) + "\n") == deps
  {
    PartsRoundTrip(deps);
    var s := DepsText(deps) + "\n";
    assert s[..|s| - 1] == DepsText(deps);
  }

  lemma LegalIsWellFormed(d: Dep)
    requires Legal(d)
    ensures WellFormed(d)
  {
  }

  /** What is accepted is well formed, so printing is a normal form for all its spellings. */
  lemma ParsedIsWellFormed(blob: string)
    requires blob != "" && DepFromBlob(blob).Some?
    ensures WellFormed(DepFromBlob(blob).value)
    ensures DepFromBlob(DepText(DepFromBlob(blob).value)) == DepFromBlob(blob)
  {
    hide OpFree, OpRun, OpMask, IsValid, DepText;
    var d := DepFromBlob(blob).value;
    var s := if blob[0] == '!' then blob[1..] else blob;
    var i := OpFree(s);
    assert forall c | c in d.name :: c in s;
    if i < |s| {
      var ops := s[i..i + OpRun(s[i..])];
      assert s[i..][0] == s[i] && ops[0] == s[i] && s[i] in ops;
      OpMaskOf(ops, s[i]);
    }
    DepRoundTrip(d);
  }

  lemma ParsedIsInside(blob: string)
    requires blob != "" && DepFromBlob(blob).Some?
    ensures
      var d := DepFromBlob(blob).value;
      (forall c | c in d.name :: c in blob) && (d.version.Some? ==> forall c | c in d.version.value :: c in blob)
  {
    hide OpFree, OpRun, OpMask, IsValid;
  }

  lemma ParsedIsLegal(blob: string)
    requires blob != "" && DepFromBlob(blob).Some?
    requires forall c | c in blob :: c != ' ' && c != '\n' && c != '\0'
    ensures Legal(DepFromBlob(blob).value)
  {
    hide DepFromBlob, WellFormed;
    ParsedIsWellFormed(blob);
    ParsedIsInside(blob);
  }

  lemma {:induction false} ParsedPartsAreLegal(parts: seq<string>)
    requires forall i, c | 0 <= i < |parts| && c in parts[i] :: c != ' ' && c != '\n' && c != '\0'
    ensures forall k | 0 <= k < |DepsOfParts(parts)| :: Legal(DepsOfParts(parts)[k])
  {
    hide DepFromBlob, Legal;
    if parts != [] {
      ParsedPartsAreLegal(parts[1..]);
      if parts[0] != "" && DepFromBlob(parts[0]).Some? { ParsedIsLegal(parts[0]); }
    }
  }

  lemma {:induction false} CharsOfSegments(s: string, sep: char)
    ensures forall i, c | 0 <= i < |Segments(s, sep)| && c in Segments(s, sep)[i] :: c in s && c != sep
    decreases |s|
  {
    hide Split;
    match Split(s, sep) {
      case None =>
      case Some((l, rest)) => CharsOfSegments(rest, sep);
    }
  }

  /** Printing what was parsed from a line and parsing it again changes nothing: the printed list is a
      normal form for every list that means the same. */
  lemma ParsedListIsNormal(line: string)
    requires '\n' !in line && '\0' !in line
    ensures ParseDeps(DepsText(ParseDeps(line))) == ParseDeps(line)
    ensures ParseDeps(line + "\n") == ParseDeps(line)
  {
    hide DepsOfParts, Segments, DepsText;
    assert line != "" ==> line[|line| - 1] in line;
    assert (line + "\n")[..|line + "\n"| - 1] == line;
    CharsOfSegments(line, ' ');
    forall i, c | 0 <= i < |Segments(line, ' ')| && c in Segments(line, ' ')[i]
      ensures c != ' ' && c != '\n' && c != '\0'
    {
      assert c in line;
    }
    ParsedPartsAreLegal(Segments(line, ' '));
    DepsRoundTrip(ParseDeps(line));
  }

  lemma OpMaskOf(ops: string, c: char)
    requires c in ops && IsOp(c)
    ensures OpMask(ops) != CONFLICT
  {
  }

  // ----- The code -----

  method ReadDep(blob: string) returns (r: Option<Dep>)
    requires blob != ""
    ensures r == DepFromBlob(blob)
  {
    hide OpMask, IsValid, OpFree, OpRun;
    var mask: Mask, s := REQUIRE, blob;
    if s[0] == '!' {
      mask, s := CONFLICT, s[1..];
    }
    var i := FindOp(s);
    if i == |s| { return Some(Dep(s, mask, None)); }
    if mask == CONFLICT { return None; }
    var n := SkipOps(s[i..]);
    var k := i + n;
    if k == |s| { return None; }
    mask := ReadOps(s[i..k]);
    if mask == BOTH_WAYS || mask == REQUIRE { return None; }
    var valid := Validate(s[k..]);
    if !valid { return None; }
    return Some(Dep(s[..i], mask, Some(s[k..])));
  }

  method FindOp(s: string) returns (i: nat)
    ensures i == OpFree(s)
  {
    i := 0;
    while i < |s| && !IsOp(s[i])
      invariant i <= |s| && i + OpFree(s[i..]) == OpFree(s)
    {
      i := i + 1;
    }
  }

  method SkipOps(s: string) returns (i: nat)
    ensures i == OpRun(s)
  {
    i := 0;
    while i < |s| && IsOp(s[i])
      invariant i <= |s| && i + OpRun(s[i..]) == OpRun(s)
    {
      i := i + 1;
    }
  }

  method ReadOps(ops: string) returns (mask: Mask)
    ensures mask == OpMask(ops)
  {
    var less, greater, equal := 0, 0, 0;
    for j := 0 to |ops|
      invariant less == (if '<' in ops[..j] then LESS else 0)
      invariant greater == (if '>' in ops[..j] then GREATER else 0)
      invariant equal == (if '=' in ops[..j] then EQUAL else 0)
    {
      assert ops[..j + 1] == ops[..j] + [ops[j]];
      match ops[j]
      case '<' => less := LESS;
      case '>' => greater := GREATER;
      case '=' => equal := EQUAL;
      case _ =>
    }
    assert ops[..|ops|] == ops;
    mask := less + greater + equal;
  }

  /** What a part adds: nothing if it is empty, and the end if it is no dependency. */
  function PartThen(part: string, more: seq<Dep>): seq<Dep> {
    if part == "" then more
    else match DepFromBlob(part) case None => [] case Some(d) => [d] + more
  }

  lemma PartsOfCut(r: string)
    requires Split(r, ' ').Some?
    ensures
      var (l, rest) := Split(r, ' ').value;
      DepsOfParts(Segments(r, ' ')) == PartThen(l, DepsOfParts(Segments(rest, ' ')))
  {
    hide Split, DepFromBlob;
    var (l, rest) := Split(r, ' ').value;
    assert ([l] + Segments(rest, ' '))[1..] == Segments(rest, ' ');
  }

  lemma PartsOfRest(r: string)
    requires Split(r, ' ').None?
    ensures DepsOfParts(Segments(r, ' ')) == PartThen(r, [])
  {
    hide Split, DepFromBlob;
  }

  /** The walk over the segments, with the parsing callback that stops it at an error. */
  method ReadDeps(blob: string) returns (deps: seq<Dep>)
    ensures deps == ParseDeps(blob)
  {
    hide DepFromBlob, Split, Segments, DepsOfParts, PartThen;
    var r := if blob != "" && blob[|blob| - 1] == '\n' then blob[..|blob| - 1] else blob;
    ghost var all := DepsOfParts(Segments(r, ' '));
    deps := [];
    var cut := Split(r, ' ');
    while cut.Some?
      invariant all == deps + DepsOfParts(Segments(r, ' ')) && cut == Split(r, ' ')
      decreases |r|
    {
      var (l, rest) := cut.value;
      PartsOfCut(r);
      var ok;
      ok, deps := ReadPart(l, deps, DepsOfParts(Segments(rest, ' ')));
      if !ok { return; }
      r := rest;
      cut := Split(r, ' ');
    }
    PartsOfRest(r);
    if r != "" {
      var _, parsed := ReadPart(r, deps, []);
      assert parsed + [] == parsed;
      deps := parsed;
    } else {
      assert PartThen(r, []) == [] && deps + [] == deps by { NoPart(); }
    }
  }

  lemma NoPart()
    ensures PartThen("", []) == []
  {
  }

  /** The callback: an empty part is skipped, and one that is no dependency ends the walk. */
  method ReadPart(part: string, deps: seq<Dep>, ghost more: seq<Dep>) returns (ok: bool, deps': seq<Dep>)
    ensures deps + PartThen(part, more) == if ok then deps' + more else deps'
  {
    hide DepFromBlob;
    if part == "" { return true, deps; }
    var d := ReadDep(part);
    if d.None? { return false, deps; }
    assert deps + ([d.value] + more) == deps + [d.value] + more;
    return true, deps + [d.value];
  }

  const LINE_BUFFER := 256

  /** What is written at once: a blank before every dependency but the first. */
  function Piece(deps: seq<Dep>, i: nat): string
    requires i < |deps|
  {
    if i == 0 then DepText(deps[i]) else " " + DepText(deps[i])
  }

  predicate PieceFits(deps: seq<Dep>, i: nat)
    requires i < |deps|
  {
    |Piece(deps, i)| <= LINE_BUFFER
  }

  /** The first piece from the i-th on that the buffer cannot hold. */
  ghost function FitFrom(deps: seq<Dep>, i: nat): (k: nat)
    requires i <= |deps|
    ensures i <= k <= |deps|
    decreases |deps| - i
  {
    if i == |deps| || !PieceFits(deps, i) then i else FitFrom(deps, i + 1)
  }

  lemma {:induction false} FitIs(deps: seq<Dep>, i: nat)
    requires i <= |deps|
    ensures forall j | i <= j < FitFrom(deps, i) :: PieceFits(deps, j)
    ensures FitFrom(deps, i) < |deps| ==> !PieceFits(deps, FitFrom(deps, i))
    decreases |deps| - i
  {
    hide PieceFits;
    if i < |deps| && PieceFits(deps, i) { FitIs(deps, i + 1); }
  }

  /** The pieces before the first that the buffer cannot hold are written, as far as the stream takes
      them; it succeeds if that is all. */
  method WriteDeps(os: OutStream, deps: seq<Dep>) returns (ok: bool)
    modifies os
    ensures os.Now() == old(os.Now()).Take(DepsText(deps[..FitFrom(deps, 0)]))
    ensures ok == (FitFrom(deps, 0) == |deps| && |DepsText(deps)| <= old(os.room))
  {
    hide DepText, Piece, FitFrom, DepsText;
    ghost var k, fit := os.Now(), FitFrom(deps, 0);
    FitIs(deps, 0);
    NothingWritten(k, deps);
    for i := 0 to |deps|
      invariant i <= fit && os.Now() == k.Take(DepsText(deps[..i])) && |DepsText(deps[..i])| <= k.room
    {
      var fits, piece := FormatPiece(deps, i);
      if !fits { return false; }
      TextGrows(deps, i);
      var sent := os.Send(piece, k, DepsText(deps[..i]));
      if !sent {
        var more := TextExtends(deps, i + 1, fit);
        TakeFull(k, DepsText(deps[..i + 1]), more);
        more := TextExtends(deps, i + 1, |deps|);
        assert deps[..|deps|] == deps;
        return false;
      }
    }
    assert deps[..|deps|] == deps;
    return true;
  }

  lemma NothingWritten(k: Sink, deps: seq<Dep>)
    ensures deps[..0] == [] && DepsText(deps[..0]) == "" && k.Take("") == k
  {
    TakeNothing(k);
  }

  lemma {:induction false} TextExtends(deps: seq<Dep>, i: nat, k: nat) returns (more: string)
    requires i <= k <= |deps|
    ensures DepsText(deps[..k]) == DepsText(deps[..i]) + more
    decreases k - i
  {
    hide DepsText, Piece;
    if i == k {
      more := "";
    } else {
      more := TextExtends(deps, i, k - 1);
      TextGrows(deps, k - 1);
      more := more + Piece(deps, k - 1);
    }
  }

  method FormatPiece(deps: seq<Dep>, i: nat) returns (fits: bool, piece: string)
    requires i < |deps|
    ensures fits == PieceFits(deps, i) && (fits ==> piece == Piece(deps, i))
  {
    hide DepText;
    var buffer := new PushBuffer(LINE_BUFFER);
    if i > 0 { buffer.PushBlob(" "); }
    PushDep(buffer, deps[i]);
    fits, piece := !buffer.failed, buffer.buf[..buffer.pos];
  }

  method PushDep(to: PushBuffer, d: Dep)
    requires to.Valid()
    modifies to, to.buf
    ensures to.Valid() && to.failed == (old(to.failed) || |DepText(d)| > to.buf.Length - old(to.pos))
    ensures !to.failed ==> to.Pushed() == old(to.Pushed()) + DepText(d)
  {
    hide OpString;
    if d.mask == CONFLICT { to.PushBlob("!"); }
    to.PushBlob(d.name);
    if d.mask != CONFLICT && d.mask != REQUIRE { PushComparison(to, d); }
  }

  method PushComparison(to: PushBuffer, d: Dep)
    requires to.Valid()
    modifies to, to.buf
    ensures to.Appended(OpString(d.mask) + if d.version.Some? then d.version.value else "")
  {
    hide OpString;
    to.PushBlob(OpString(d.mask));
    to.PushBlob(if d.version.Some? then d.version.value else "");
  }

  lemma TextGrows(deps: seq<Dep>, i: nat)
    requires i < |deps|
    ensures DepsText(deps[..i + 1]) == DepsText(deps[..i]) + Piece(deps, i)
  {
    hide DepText;
    assert deps[..i + 1] == deps[..i] + [deps[i]];
    TextWithOneMore(deps[..i], deps[i]);
  }

  lemma {:induction false} TextWithOneMore(deps: seq<Dep>, d: Dep)
    ensures DepsText(deps + [d]) == DepsText(deps) + if deps == [] then DepText(d) else " " + DepText(d)
  {
    hide DepText;
    if deps != [] {
      assert (deps + [d])[1..] == deps[1..] + [d];
      TextWithOneMore(deps[1..], d);
      if |deps| > 1 {
        assert DepsText(deps + [d]) == DepText(deps[0]) + " " + DepsText(deps[1..] + [d]);
        assert DepsText(deps) == DepText(deps[0]) + " " + DepsText(deps[1..]);
      } else {
        assert DepsText(deps[1..] + [d]) == DepText(d);
      }
    }
  }
}
