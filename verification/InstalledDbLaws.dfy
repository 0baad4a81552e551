/** What the reader of the databases does with lines that no writer of its own version writes. */
module InstalledDbLaws {
  import opened Wrappers
  import opened Version
  import opened Codec
  import opened Dependencies
  import opened Splitting
  import opened InstalledDb
  import opened InstalledDbRoundTrip

  // ----- The format -----

  lemma {:induction false} JoinedBoth(a: seq<string>, b: seq<string>)
    ensures Joined(a + b, '\n') == Joined(a, '\n') + Joined(b, '\n')
  {
    if a == [] {
      assert a + b == b;
    } else {
      assert (a + b)[1..] == a[1..] + b;
      JoinedBoth(a[1..], b);
    }
  }

  lemma JoinedLine(f: char, v: string, more: seq<string>)
    ensures Joined([Line(f, v)] + more, '\n') == [f, ':'] + v + "\n" + Joined(more, '\n')
  {
    assert ([Line(f, v)] + more)[1..] == more;
  }

  lemma JoinedNone()
    ensures Joined([], '\n') == ""
  {
  }

  /** The lines of a package in an index: first what it is, then its sizes and what is said about it. */
  lemma EntryFormat(i: Info, beyond: Beyond) returns (first: seq<string>, second: seq<string>)
    requires Summed(i.csum)
    ensures InfoLines(i, beyond) == first + second
    ensures Joined(InfoLines(i, beyond), '\n') == Joined(first, '\n') + Joined(second, '\n')
    ensures
      Joined(first, '\n') ==
      "C:" + CsumText(i.csum, beyond).value + "\n" + ("P:" + i.name + "\n" + ("V:" + Text(i.version) + "\n"
      + if i.arch.Some? then "A:" + i.arch.value + "\n" + "" else ""))
    ensures
      Joined(second, '\n') ==
      "S:" + UintText(i.size, 10) + "\n" + ("I:" + UintText(i.installedSize, 10) + "\n"
      + ("T:" + Text(i.description) + "\n" + ("U:" + Text(i.url) + "\n" + ("L:" + Text(i.license) + "\n"
      + if i.deps != [] then "D:" + DepsText(i.deps) + "\n" + "" else ""))))
  {
    hide Joined, Line, CsumText, UintText, DepsText;
    first := EntryFirst(i, beyond);
    second := EntrySecond(i);
    assert InfoLines(i, beyond) == first + second;
    JoinedBoth(first, second);
  }

  lemma EntryFirst(i: Info, beyond: Beyond) returns (first: seq<string>)
    requires Summed(i.csum)
    ensures first == [Line('C', CsumText(i.csum, beyond).value), Line('P', i.name), Line('V', Text(i.version))]
                     + if i.arch.Some? then [Line('A', i.arch.value)] else []
    ensures
      Joined(first, '\n') ==
      "C:" + CsumText(i.csum, beyond).value + "\n" + ("P:" + i.name + "\n" + ("V:" + Text(i.version) + "\n"
      + if i.arch.Some? then "A:" + i.arch.value + "\n" + "" else ""))
  {
    hide Joined, Line, CsumText;
    var a: seq<string> := [];
    JoinedNone();
    if i.arch.Some? {
      JoinedLine('A', i.arch.value, []);
      a := [Line('A', i.arch.value)] + [];
    }
    JoinedLine('V', Text(i.version), a);
    JoinedLine('P', i.name, [Line('V', Text(i.version))] + a);
    JoinedLine('C', CsumText(i.csum, beyond).value, [Line('P', i.name)] + ([Line('V', Text(i.version))] + a));
    first := [Line('C', CsumText(i.csum, beyond).value)] + ([Line('P', i.name)] + ([Line('V', Text(i.version))] + a));
  }

  lemma EntrySecond(i: Info) returns (second: seq<string>)
    ensures second == [Line('S', UintText(i.size, 10)), Line('I', UintText(i.installedSize, 10)),
                       Line('T', Text(i.description)), Line('U', Text(i.url)), Line('L', Text(i.license))]
                      + if i.deps != [] then [Line('D', DepsText(i.deps))] else []
    ensures
      Joined(second, '\n') ==
      "S:" + UintText(i.size, 10) + "\n" + ("I:" + UintText(i.installedSize, 10) + "\n"
      + ("T:" + Text(i.description) + "\n" + ("U:" + Text(i.url) + "\n" + ("L:" + Text(i.license) + "\n"
      + if i.deps != [] then "D:" + DepsText(i.deps) + "\n" + "" else ""))))
  {
    hide Joined, Line, UintText, DepsText;
    var d: seq<string> := [];
    JoinedNone();
    if i.deps != [] {
      JoinedLine('D', DepsText(i.deps), []);
      d := [Line('D', DepsText(i.deps))] + [];
    }
    var l := [Line('L', Text(i.license))] + d;
    var u := [Line('U', Text(i.url))] + l;
    var t := [Line('T', Text(i.description))] + u;
    var n := [Line('I', UintText(i.installedSize, 10))] + t;
    JoinedLine('L', Text(i.license), d);
    JoinedLine('U', Text(i.url), l);
    JoinedLine('T', Text(i.description), u);
    JoinedLine('I', UintText(i.installedSize, 10), t);
    JoinedLine('S', UintText(i.size, 10), n);
    second := [Line('S', UintText(i.size, 10))] + n;
  }

  /** The lines of a directory with its first file, in the installed database. */
  lemma DirectoryFormat(d: Dir, f: File, beyond: Beyond)
    requires f.csum.Valid()
    ensures
      Joined(DirHeader(d) + FileLines(f, beyond), '\n') ==
      "F:" + d.name + "\n" + ("M:" + (UintText(d.uid, 10) + ":" + UintText(d.gid, 10) + ":" + UintText(d.mode, 8)) + "\n"
      + ("R:" + f.name + "\n" + if f.csum.kind.NoSum? then "" else "Z:" + CsumText(f.csum, beyond).value + "\n" + ""))
  {
    hide Joined, Line, CsumText, UintText;
    var z: seq<string> := [];
    JoinedNone();
    if !f.csum.kind.NoSum? {
      JoinedLine('Z', CsumText(f.csum, beyond).value, []);
      z := [Line('Z', CsumText(f.csum, beyond).value)] + [];
    }
    var r := [Line('R', f.name)] + z;
    var m := [Line('M', OwnerText(d))] + r;
    JoinedLine('R', f.name, z);
    JoinedLine('M', OwnerText(d), r);
    JoinedLine('F', d.name, m);
    assert DirHeader(d) + FileLines(f, beyond) == [Line('F', d.name)] + m;
  }

  // ----- Unknown fields -----

  const INDEX_LETTERS := ['C', 'P', 'V', 'A', 'S', 'I', 'T', 'U', 'L', 'D']
  const FILE_LETTERS := ['F', 'M', 'R', 'Z']

  /** In an index a field that is not known makes its package uninstallable, unless it is a lower case
      letter; the fields of the installed database are passed over. */
  lemma UnknownFieldInIndex(r: Reader, i: Info, beyond: Beyond, f: char, v: string, lines: seq<string>, force: bool)
    requires r.Ok() && r.current.None? && !r.mode.InstalledMode? && LegalInfo(i) && f !in INDEX_LETTERS
    ensures
      var p := DraftOf(i).(installable := f in FILE_LETTERS || 'a' <= f <= 'z');
      ReadLines(r, InfoLines(i, beyond) + ([Line(f, v)] + ([""] + lines)), force) ==
      ReadLines(r.(done := r.done + [Offered(p, r.mode)]), lines, force)
  {
    hide ReadLines, InfoLines, NormSum;
    InfoRead(r, i, beyond, [Line(f, v)] + ([""] + lines), force);
    var p := DraftOf(i).(installable := f in FILE_LETTERS || 'a' <= f <= 'z');
    var r1, r2 := r.(current := Some(DraftOf(i))), r.(current := Some(p));
    assert r1 == r.(current := Some(DraftOf(i)), installed := false, listed := false);
    UnknownRead(r1, f, v, force);
    ReadCons(r1, Line(f, v), [""] + lines, force);
    ReadCons(r2, "", lines, force);
  }

  lemma UnknownRead(r: Reader, f: char, v: string, force: bool)
    requires r.Ok() && r.current.Some? && !r.installed && f !in INDEX_LETTERS && r.current.value.installable
    ensures ReadLine(r, Line(f, v), force) ==
            Some(r.(current := Some(r.current.value.(installable := f in FILE_LETTERS || 'a' <= f <= 'z'))))
  {
    hide PullField, PullUint, ParseDeps;
    var line := Line(f, v);
    assert line[0] == f && line[1] == ':' && line[2..] == v;
    var p := r.current.value;
    assert p.(installable := true) == p;
  }

  // ----- Lines that end the reading -----

  /** Behind the index lines of an installed package. */
  function Entered(r: Reader, i: Info): Reader
    requires LegalInfo(i)
  {
    r.(current := Some(DraftOf(i)), installed := true, listed := true)
  }

  lemma InfoThen(r: Reader, i: Info, beyond: Beyond, line: string, lines: seq<string>, force: bool)
    requires r.Ok() && r.current.None? && r.mode.InstalledMode? && LegalInfo(i)
    ensures Entered(r, i).Ok()
    ensures ReadLines(r, InfoLines(i, beyond) + ([line] + lines), force) ==
            match ReadLine(Entered(r, i), line, force)
            case None => None
            case Some(r1) => ReadLines(r1, lines, force)
  {
    hide InfoLines, NormSum, ReadLine;
    InfoRead(r, i, beyond, [line] + lines, force);
    assert ([line] + lines)[0] == line && ([line] + lines)[1..] == lines;
  }

  /** The reading of the installed database ends in an error at a line about the owner of a directory,
      or about a file, that has no directory before it, at a checksum without a file, and at a field
      that is not known, unless by force: then the package counts as installable. */
  lemma FatalLines(r: Reader, i: Info, beyond: Beyond, f: char, v: string, lines: seq<string>, force: bool)
    requires r.Ok() && r.current.None? && r.mode.InstalledMode? && LegalInfo(i) && r.file.None?
    ensures f in ['M', 'R', 'Z'] ==> ReadLines(r, InfoLines(i, beyond) + ([Line(f, v)] + lines), force) == None
    ensures f !in INDEX_LETTERS && f !in FILE_LETTERS ==>
              ReadLines(r, InfoLines(i, beyond) + ([Line(f, v)] + lines), force) ==
              if force then ReadLines(Entered(r, i), lines, force) else None
  {
    hide InfoLines, NormSum, PullField, PullUint, ParseDeps, PullOwner, ReadLines;
    InfoThen(r, i, beyond, Line(f, v), lines, force);
    if f in ['M', 'R', 'Z'] || (f !in INDEX_LETTERS && f !in FILE_LETTERS) { FatalLine(Entered(r, i), f, v, force); }
  }

  lemma FatalLine(r: Reader, f: char, v: string, force: bool)
    requires r.Ok() && r.installed && !r.inDir && r.file.None? && r.current.value.installable
    requires f in ['M', 'R', 'Z'] || (f !in INDEX_LETTERS && f !in FILE_LETTERS)
    ensures ReadLine(r, Line(f, v), force) == if f in ['M', 'R', 'Z'] || !force then None else Some(r)
  {
    hide PullField, PullUint, ParseDeps, PullOwner;
    var line := Line(f, v);
    assert line[0] == f && line[1] == ':' && line[2..] == v;
    var p := r.current.value;
    assert p.(installable := true) == p && r.(current := Some(p)) == r;
  }

  /** A directory line begins a directory of the package, whose name has no slash at its end. */
  lemma DirectoryBegins(r: Reader, i: Info, beyond: Beyond, d: string, lines: seq<string>, force: bool)
    requires r.Ok() && r.current.None? && r.mode.InstalledMode? && LegalInfo(i)
    requires d != "" ==> d[|d| - 1] != '/'
    ensures
      var r1 := r.(current := Some(DraftOf(i).(dirs := [DraftDir(d, 0, 0, 0, [])])), installed := true, listed := true,
                   inDir := true);
      && r1.Ok() && ReadLines(r, InfoLines(i, beyond) + ([Line('F', d)] + lines), force) == ReadLines(r1, lines, force)
      && ReadLines(r, InfoLines(i, beyond) + ([Line('F', d + "/")] + lines), force) == ReadLines(r1, lines, force)
  {
    hide InfoLines, NormSum, PullField, PullUint, ParseDeps, PullOwner, ReadLines;
    InfoThen(r, i, beyond, Line('F', d), lines, force);
    InfoThen(r, i, beyond, Line('F', d + "/"), lines, force);
    DirectoryLine(Entered(r, i), d, force);
  }

  lemma DirectoryLine(r: Reader, d: string, force: bool)
    requires r.Ok() && r.installed && r.current.value.name.Some? && r.current.value.dirs == []
    requires d != "" ==> d[|d| - 1] != '/'
    ensures
      var r1 := r.(current := Some(r.current.value.(dirs := [DraftDir(d, 0, 0, 0, [])])), inDir := true);
      ReadLine(r, Line('F', d), force) == Some(r1) && ReadLine(r, Line('F', d + "/"), force) == Some(r1)
  {
    hide PullField, PullUint, ParseDeps, PullOwner;
    var a, b := Line('F', d), Line('F', d + "/");
    assert a[0] == 'F' && a[1] == ':' && a[2..] == d && b[0] == 'F' && b[1] == ':' && b[2..] == d + "/";
    assert (d + "/")[..|d|] == d && r.(current := Some(r.current.value)) == r;
    assert [] + [DraftDir(d, 0, 0, 0, [])] == [DraftDir(d, 0, 0, 0, [])];
  }

  // ----- Any lines -----

  /** Whatever is read, a path is entered once: its first owner keeps it. */
  lemma {:induction false} EachPathOnce(r: Reader, lines: seq<string>, force: bool)
    requires r.Ok() && NoneTwice(r.files) && ReadLines(r, lines, force).Some?
    ensures NoneTwice(ReadLines(r, lines, force).value.files)
    decreases lines
  {
    hide ReadLine, NoneTwice;
    if lines != [] {
      OneLineOnce(r, lines[0], force);
      EachPathOnce(ReadLine(r, lines[0], force).value, lines[1..], force);
    }
  }

  lemma OneLineOnce(r: Reader, line: string, force: bool)
    requires r.Ok() && NoneTwice(r.files) && ReadLine(r, line, force).Some?
    ensures NoneTwice(ReadLine(r, line, force).value.files)
  {
    hide AddInfo, AddFdb, NoneTwice;
    if |line| >= 2 && line[1] == ':' {
      var r0 := if r.current.Some? then r else r.(current := Some(NewDraft()));
      var p := AddInfo(r0.current.value, line[0], line[2..]).0;
      var r1 := r0.(current := Some(p));
      if r1.Ok() && AddFdb(r1, line[0], line[2..], force).Some? { FdbOnce(r1, line[0], line[2..], force); }
    }
  }

  lemma FdbOnce(r: Reader, f: char, v: string, force: bool)
    requires r.Ok() && r.current.Some? && NoneTwice(r.files) && AddFdb(r, f, v, force).Some?
    ensures NoneTwice(AddFdb(r, f, v, force).value.files)
  {
    hide PullField, PullOwner, FindFile, DirName, SetLastDir;
  }
}
