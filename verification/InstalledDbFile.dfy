/** apk_db_write_fdb with its buffers, and apk_db_index_read with its cursors. */
module InstalledDbFile {
  import opened Wrappers
  import opened Codec
  import opened CodecBuffer
  import opened Dependencies
  import opened Splitting
  import opened LineReader
  import opened Streams
  import opened InstalledDb
  import opened InstalledDbRoundTrip

  // ----- Writing -----

  const ENTRY_BUFFER := 512
  const FDB_BUFFER := 1024

  /** The lines as they are written, each ended by a newline. */
  function Out(lines: seq<string>): string { Joined(lines, '\n') }

  lemma {:induction false} OutOfBoth(a: seq<string>, b: seq<string>)
    ensures Out(a + b) == Out(a) + Out(b)
  {
    if a == [] {
      assert a + b == b;
    } else {
      assert (a + b)[1..] == a[1..] + b;
      OutOfBoth(a[1..], b);
    }
  }

  lemma OutOfOne(line: string)
    ensures Out([line]) == line + "\n"
  {
    assert [line][1..] == [] && Out([]) == "";
    assert Out([line]) == [line][0] + ['\n'] + Out([]);
  }

  predicate DepsFit(deps: seq<Dep>) { forall i | 0 <= i < |deps| :: PieceFits(deps, i) }

  /** The lines but for the dependencies go through one buffer. */
  predicate InfoFits(i: Info, beyond: Beyond) {
    Summed(i.csum) && |Out(InfoLines(i.(deps := []), beyond))| <= ENTRY_BUFFER && DepsFit(i.deps)
  }

  /** A directory's header shares the buffer with its first file; every other file has its own. */
  predicate DirFits(d: Dir, beyond: Beyond)
    requires Sound(d)
  {
    && |Out(DirHeader(d))| + (if d.files == [] then 0 else |Out(FileLines(d.files[0], beyond))|) <= FDB_BUFFER
    && forall k | 1 <= k < |d.files| :: |Out(FileLines(d.files[k], beyond))| <= FDB_BUFFER
  }

  predicate Narrow(p: Package) {
    && p.info.csum.Valid() && p.info.size < WRAP && p.info.installedSize < WRAP && AllSound(p.dirs)
    && forall k | 0 <= k < |p.dirs| :: NarrowDir(p.dirs[k])
  }

  predicate AllNarrow(ps: seq<Package>) { forall k | 0 <= k < |ps| :: Narrow(ps[k]) }

  predicate PackageFits(p: Package, beyond: Beyond)
    requires Narrow(p)
  {
    InfoFits(p.info, beyond) && forall k | 0 <= k < |p.dirs| :: DirFits(p.dirs[k], beyond)
  }

  predicate AllFit(ps: seq<Package>, beyond: Beyond)
    requires AllNarrow(ps)
  {
    forall k | 0 <= k < |ps| :: PackageFits(ps[k], beyond)
  }

  predicate NarrowDir(d: Dir) { Sound(d) && d.uid < WRAP && d.gid < WRAP && d.mode < WRAP }

  /** Exactly these lines have been pushed, unless they were too much for the buffer. */
  ghost predicate Holds(to: PushBuffer, lines: seq<string>)
    reads to, to.buf
  {
    && to.Valid() && to.failed == (|Out(lines)| > to.buf.Length)
    && (!to.failed ==> to.Pushed() == Out(lines))
  }

  lemma OutGrows(lines: seq<string>, line: string)
    ensures Out(lines + [line]) == Out(lines) + line + "\n"
  {
    OutOfBoth(lines, [line]);
    OutOfOne(line);
  }

  method PushLine(to: PushBuffer, field: char, value: string, ghost lines: seq<string>)
    requires to.Valid()
    modifies to, to.buf
    ensures to.Valid() && (old(to.failed) ==> to.failed)
    ensures old(Holds(to, lines)) ==> Holds(to, lines + [Line(field, value)])
  {
    hide Out;
    OutGrows(lines, Line(field, value));
    to.PushBlob([field, ':']);
    to.PushBlob(value);
    to.PushBlob("\n");
  }

  method PushUintLine(to: PushBuffer, field: char, value: nat, ghost lines: seq<string>)
    requires to.Valid() && value < WRAP
    modifies to, to.buf
    ensures to.Valid() && (old(to.failed) ==> to.failed)
    ensures old(Holds(to, lines)) ==> Holds(to, lines + [Line(field, UintText(value, 10))])
  {
    hide UintText, Out;
    OutGrows(lines, Line(field, UintText(value, 10)));
    to.PushBlob([field, ':']);
    to.PushUint(value, 10);
    to.PushBlob("\n");
  }

  method PushCsumLine(to: PushBuffer, field: char, csum: Checksum, beyond: Beyond, ghost lines: seq<string>)
    requires to.Valid() && csum.Valid()
    modifies to, to.buf
    ensures to.Valid() && (old(to.failed) || !Summed(csum) ==> to.failed)
    ensures old(Holds(to, lines)) && Summed(csum) ==> Holds(to, lines + [Line(field, CsumText(csum, beyond).value)])
  {
    hide CsumText, Out;
    if Summed(csum) { OutGrows(lines, Line(field, CsumText(csum, beyond).value)); }
    to.PushBlob([field, ':']);
    to.PushCsum(csum, beyond);
    to.PushBlob("\n");
  }

  method PushInfo(to: PushBuffer, i: Info, beyond: Beyond)
    requires to.Valid() && Holds(to, []) && i.csum.Valid() && i.size < WRAP && i.installedSize < WRAP
    modifies to, to.buf
    ensures to.Valid() && (!Summed(i.csum) ==> to.failed)
    ensures Summed(i.csum) ==> Holds(to, InfoLines(i.(deps := []), beyond))
  {
    hide Line, Out, UintText, CsumText, Holds, PushBuffer.Valid;
    ghost var done := [];
    PushCsumLine(to, 'C', i.csum, beyond, done);
    if Summed(i.csum) { done := done + [Line('C', CsumText(i.csum, beyond).value)]; }
    PushLine(to, 'P', i.name, done);
    done := done + [Line('P', i.name)];
    PushLine(to, 'V', Text(i.version), done);
    done := done + [Line('V', Text(i.version))];
    if i.arch.Some? {
      PushLine(to, 'A', i.arch.value, done);
      done := done + [Line('A', i.arch.value)];
    }
    PushUintLine(to, 'S', i.size, done);
    done := done + [Line('S', UintText(i.size, 10))];
    PushUintLine(to, 'I', i.installedSize, done);
    done := done + [Line('I', UintText(i.installedSize, 10))];
    PushLine(to, 'T', Text(i.description), done);
    done := done + [Line('T', Text(i.description))];
    PushLine(to, 'U', Text(i.url), done);
    done := done + [Line('U', Text(i.url))];
    PushLine(to, 'L', Text(i.license), done);
    assert Summed(i.csum) ==> done + [Line('L', Text(i.license))] == InfoLines(i.(deps := []), beyond);
  }

  /** apk_pkg_write_index_entry: it succeeds if the entry fits and the stream takes all of it. */
  method WriteEntry(os: OutStream, i: Info, beyond: Beyond) returns (ok: bool)
    requires i.csum.Valid() && i.size < WRAP && i.installedSize < WRAP
    modifies os
    ensures ok == (InfoFits(i, beyond) && |Out(InfoLines(i, beyond))| <= old(os.room))
    ensures InfoFits(i, beyond) ==> os.Now() == old(os.Now()).Take(Out(InfoLines(i, beyond)))
  {
    hide Line, Out, UintText, CsumText, DepsText, InfoLines, Sink.Take;
    OutOfNone();
    var buffer := new PushBuffer(ENTRY_BUFFER);
    PushInfo(buffer, i, beyond);
    if buffer.failed { return false; }
    OutOfDeps(i, beyond);
    ghost var k, first := os.Now(), Out(InfoLines(i.(deps := []), beyond));
    assert buffer.buf[..buffer.pos] == first && "" + first == first;
    TakeNothing(k);
    ok := os.Send(buffer.buf[..buffer.pos], k, "");
    if i.deps == [] { assert first + "" == first; return; }
    assert first + ("D:" + DepsText(i.deps) + "\n") == first + "D:" + DepsText(i.deps) + "\n";
    if !ok {
      TakeFull(k, first, "D:" + DepsText(i.deps) + "\n");
      return;
    }
    ok := WriteDepsLine(os, i.deps, k, first);
  }

  method WriteDepsLine(os: OutStream, deps: seq<Dep>, ghost k: Sink, ghost done: string) returns (ok: bool)
    requires os.Now() == k.Take(done) && |done| <= k.room
    modifies os
    ensures ok == (DepsFit(deps) && |done + "D:" + DepsText(deps) + "\n"| <= k.room)
    ensures DepsFit(deps) ==> os.Now() == k.Take(done + "D:" + DepsText(deps) + "\n")
  {
    hide DepsText, FitFrom, Piece;
    var text := DepsText(deps);
    ok := os.Send("D:", k, done);
    if !ok {
      TakeFull(k, done + "D:", text + "\n");
      assert done + "D:" + (text + "\n") == done + "D:" + text + "\n";
      return;
    }
    FitIs(deps, 0);
    ok := WriteDeps(os, deps);
    if DepsFit(deps) {
      assert deps[..|deps|] == deps;
      TakeBoth(k, done + "D:", text);
    }
    if !ok {
      if DepsFit(deps) { TakeFull(k, done + "D:" + text, "\n"); }
      return;
    }
    ok := os.Send("\n", k, done + "D:" + text);
  }

  lemma OutOfNone()
    ensures Out([]) == ""
  {
  }

  lemma OutOfDeps(i: Info, beyond: Beyond)
    requires Summed(i.csum)
    ensures Out(InfoLines(i, beyond)) ==
            Out(InfoLines(i.(deps := []), beyond)) + if i.deps == [] then "" else "D:" + DepsText(i.deps) + "\n"
  {
    hide Out, CsumText, UintText, DepsText;
    var first := InfoLines(i.(deps := []), beyond);
    if i.deps == [] {
      assert i.(deps := []) == i;
    } else {
      assert InfoLines(i, beyond) == first + [Line('D', DepsText(i.deps))];
      OutGrows(first, Line('D', DepsText(i.deps)));
    }
  }

  method PushHeader(to: PushBuffer, d: Dir)
    requires to.Valid() && Holds(to, []) && NarrowDir(d)
    modifies to, to.buf
    ensures to.Valid() && Holds(to, DirHeader(d))
  {
    hide Out, UintText, Holds;
    PushLine(to, 'F', d.name, []);
    assert [] + [Line('F', d.name)] == [Line('F', d.name)];
    PushOwnerLine(to, d, [Line('F', d.name)]);
    assert [Line('F', d.name)] + [Line('M', OwnerText(d))] == DirHeader(d);
  }

  method PushOwnerLine(to: PushBuffer, d: Dir, ghost lines: seq<string>)
    requires to.Valid() && NarrowDir(d)
    modifies to, to.buf
    ensures to.Valid() && (old(Holds(to, lines)) ==> Holds(to, lines + [Line('M', OwnerText(d))]))
  {
    hide OwnerText, Out;
    OutGrows(lines, Line('M', OwnerText(d)));
    to.PushBlob("M:");
    PushOwner(to, d);
    to.PushBlob("\n");
  }

  method PushOwner(to: PushBuffer, d: Dir)
    requires to.Valid() && NarrowDir(d)
    modifies to, to.buf
    ensures to.Appended(OwnerText(d))
  {
    hide UintText;
    to.PushUint(d.uid, 10);
    to.PushBlob(":");
    to.PushUint(d.gid, 10);
    to.PushBlob(":");
    to.PushUint(d.mode, 8);
  }

  method PushFile(to: PushBuffer, f: File, beyond: Beyond, ghost lines: seq<string>)
    requires to.Valid() && Holds(to, lines) && f.csum.Valid()
    modifies to, to.buf
    ensures to.Valid() && Holds(to, lines + FileLines(f, beyond))
  {
    hide Out, CsumText, Holds, Line;
    PushLine(to, 'R', f.name, lines);
    if f.csum.kind.NoSum? {
      assert lines + [Line('R', f.name)] == lines + FileLines(f, beyond);
    } else {
      PushCsumLine(to, 'Z', f.csum, beyond, lines + [Line('R', f.name)]);
      assert lines + [Line('R', f.name)] + [Line('Z', CsumText(f.csum, beyond).value)] == lines + FileLines(f, beyond);
    }
  }

  /** Writes what the buffer holds, and empties it. */
  method Flush(os: OutStream, buffer: PushBuffer, ghost lines: seq<string>, ghost k: Sink, ghost done: string)
    returns (ok: bool)
    requires buffer.Valid() && Holds(buffer, lines) && os.Now() == k.Take(done) && |done| <= k.room
    modifies os, buffer
    ensures buffer.Valid() && ok == (|Out(lines)| <= buffer.buf.Length && |done + Out(lines)| <= k.room)
    ensures |Out(lines)| <= buffer.buf.Length ==> os.Now() == k.Take(done + Out(lines))
    ensures ok ==> Holds(buffer, [])
  {
    if buffer.failed { return false; }
    ok := os.Send(buffer.buf[..buffer.pos], k, done);
    buffer.Reset();
  }

  /** The lines that share the buffer with file `k`. */
  function Before(d: Dir, k: nat): seq<string> { if k == 0 then DirHeader(d) else [] }

  method WriteDir(os: OutStream, buffer: PushBuffer, d: Dir, beyond: Beyond) returns (ok: bool)
    requires buffer.Valid() && Holds(buffer, []) && buffer.buf.Length == FDB_BUFFER && NarrowDir(d)
    modifies os, buffer, buffer.buf
    ensures buffer.Valid()
    ensures
      var all := Out(DirHeader(d) + FilesLines(d.files, beyond));
      && ok == (DirFits(d, beyond) && |all| <= old(os.room))
      && (DirFits(d, beyond) ==> os.Now() == old(os.Now()).Take(all))
    ensures ok ==> Holds(buffer, [])
  {
    hide Out, FileLines, DirHeader, Holds, PushBuffer.Valid, Sink.Take;
    PushHeader(buffer, d);
    ghost var s, done := os.Now(), "";
    ghost var all := Out(DirHeader(d) + FilesLines(d.files, beyond));
    TakeNothing(s);
    assert d.files[0..] == d.files;
    assert "" + all == all;
    for k := 0 to |d.files|
      invariant buffer.Valid() && Holds(buffer, Before(d, k))
      invariant os.Now() == s.Take(done) && |done| <= s.room
      invariant all == done + Out(Before(d, k) + FilesLines(d.files[k..], beyond))
      invariant forall j | 0 <= j < k :: |Out(Before(d, j) + FileLines(d.files[j], beyond))| <= FDB_BUFFER
    {
      ghost var lines, rest := Before(d, k) + FileLines(d.files[k], beyond), [] + FilesLines(d.files[k + 1..], beyond);
      PushFile(buffer, d.files[k], beyond, Before(d, k));
      FilesLinesFrom(d, k, beyond);
      assert done + Out(lines) + Out(rest) == all;
      ok := Flush(os, buffer, lines, s, done);
      if !ok {
        FitsWhen(d, beyond);
        if |Out(lines)| <= FDB_BUFFER { TakeFull(s, done + Out(lines), Out(rest)); }
        return;
      }
      done := done + Out(lines);
    }
    assert FilesLines(d.files[|d.files|..], beyond) == [];
    assert Before(d, |d.files|) + [] == Before(d, |d.files|);
    ok := Flush(os, buffer, Before(d, |d.files|), s, done);
    FitsWhen(d, beyond);
  }

  lemma FilesLinesFrom(d: Dir, k: nat, beyond: Beyond)
    requires k < |d.files| && Sound(d)
    ensures Out(Before(d, k) + FilesLines(d.files[k..], beyond)) ==
            Out(Before(d, k) + FileLines(d.files[k], beyond)) + Out([] + FilesLines(d.files[k + 1..], beyond))
  {
    hide FileLines, Out, DirHeader;
    assert d.files[k..][1..] == d.files[k + 1..];
    var here, rest := FileLines(d.files[k], beyond), FilesLines(d.files[k + 1..], beyond);
    assert FilesLines(d.files[k..], beyond) == here + rest;
    Regroup(Before(d, k), here, rest);
    OutOfBoth(Before(d, k) + here, rest);
    assert [] + rest == rest;
  }

  lemma FitsWhen(d: Dir, beyond: Beyond)
    requires Sound(d)
    ensures DirFits(d, beyond) <==>
              && |Out(Before(d, |d.files|))| <= FDB_BUFFER
              && forall j | 0 <= j < |d.files| :: |Out(Before(d, j) + FileLines(d.files[j], beyond))| <= FDB_BUFFER
  {
    hide FileLines, Out, DirHeader;
    OutOfNone();
    if d.files != [] { OutOfBoth(DirHeader(d), FileLines(d.files[0], beyond)); }
    forall j | 1 <= j < |d.files|
      ensures Before(d, j) + FileLines(d.files[j], beyond) == FileLines(d.files[j], beyond)
    {
    }
  }

  function PackageLines(p: Package, beyond: Beyond): seq<string>
    requires Writable(p)
  {
    InfoLines(p.info, beyond) + DirsLines(p.dirs, beyond) + [""]
  }

  /** The result of the last write, of an empty line, is not looked at. */
  method WritePackage(os: OutStream, buffer: PushBuffer, p: Package, beyond: Beyond) returns (ok: bool)
    requires buffer.Valid() && Holds(buffer, []) && buffer.buf.Length == FDB_BUFFER && Narrow(p)
    modifies os, buffer, buffer.buf
    ensures buffer.Valid() && (PackageFits(p, beyond) ==> Writable(p))
    ensures ok == (PackageFits(p, beyond) && |Out(PackageLines(p, beyond))| <= old(os.room) + 1)
    ensures PackageFits(p, beyond) ==> os.Now() == old(os.Now()).Take(Out(PackageLines(p, beyond)))
    ensures ok ==> Holds(buffer, [])
  {
    hide Out, InfoLines, DirsLines, Holds, PushBuffer.Valid, DirFits, Sound, Sink.Take;
    ghost var s := os.Now();
    ok := WriteEntry(os, p.info, beyond);
    if !Summed(p.info.csum) { return; }
    assert AllSound(p.dirs);
    ghost var done, rest := Out(InfoLines(p.info, beyond)), Out(DirsLines(p.dirs, beyond) + [""]);
    ghost var all := done + rest;
    Regroup(InfoLines(p.info, beyond), DirsLines(p.dirs, beyond), [""]);
    OutOfBoth(InfoLines(p.info, beyond), DirsLines(p.dirs, beyond) + [""]);
    OutEnds(DirsLines(p.dirs, beyond));
    if !ok {
      if InfoFits(p.info, beyond) { TakeFull(s, done, rest); }
      return;
    }
    assert p.dirs[0..] == p.dirs;
    for k := 0 to |p.dirs|
      invariant buffer.Valid() && Holds(buffer, [])
      invariant os.Now() == s.Take(done) && |done| <= s.room
      invariant all == done + Out(DirsLines(p.dirs[k..], beyond) + [""])
      invariant forall j | 0 <= j < k :: DirFits(p.dirs[j], beyond)
    {
      assert NarrowDir(p.dirs[k]);
      ok, done := WriteNextDir(os, buffer, p.dirs, k, beyond, s, done, all);
      if !ok { return; }
    }
    OutOfLast(p.dirs, beyond);
    TakeBoth(s, done, "\n");
    var _ := os.Write("\n");
    return true;
  }

  method WriteNextDir(
    os: OutStream, buffer: PushBuffer, ds: seq<Dir>, k: nat, beyond: Beyond, ghost s: Sink, ghost done: string,
    ghost all: string)
    returns (ok: bool, ghost done': string)
    requires buffer.Valid() && Holds(buffer, []) && buffer.buf.Length == FDB_BUFFER
    requires AllSound(ds) && k < |ds| && NarrowDir(ds[k]) && os.Now() == s.Take(done) && |done| <= s.room
    requires all == done + Out(DirsLines(ds[k..], beyond) + [""])
    modifies os, buffer, buffer.buf
    ensures buffer.Valid()
    ensures ok ==>
              && Holds(buffer, []) && DirFits(ds[k], beyond) && os.Now() == s.Take(done') && |done'| <= s.room
              && all == done' + Out(DirsLines(ds[k + 1..], beyond) + [""])
    ensures !ok && DirFits(ds[k], beyond) ==> |all| > s.room + 1 && os.Now() == s.Take(all)
  {
    assert AllSound(ds[k + 1..]);
    hide Out, DirsLines, FilesLines, DirHeader, Holds, PushBuffer.Valid, DirFits, Sound;
    ghost var here := Out(DirHeader(ds[k]) + FilesLines(ds[k].files, beyond));
    ghost var rest := Out(DirsLines(ds[k + 1..], beyond) + [""]);
    ok := WriteDir(os, buffer, ds[k], beyond);
    done' := done + here;
    DirsLinesFrom(ds, k, beyond);
    assert all == done' + rest;
    TakeBoth(s, done, here);
    OutEnds(DirsLines(ds[k + 1..], beyond));
    if !ok && DirFits(ds[k], beyond) { TakeFull(s, done', rest); }
  }

  lemma OutEnds(lines: seq<string>)
    ensures |Out(lines + [""])| >= 1
  {
    OutOfBoth(lines, [""]);
    OutOfOne("");
  }

  lemma OutOfLast(ds: seq<Dir>, beyond: Beyond)
    ensures ds[|ds|..] == [] && Out(DirsLines([], beyond) + [""]) == "\n"
  {
    assert DirsLines([], beyond) + [""] == [""];
    OutOfOne("");
  }

  lemma DirsLinesFrom(ds: seq<Dir>, k: nat, beyond: Beyond)
    requires k < |ds| && AllSound(ds)
    ensures Out(DirsLines(ds[k..], beyond) + [""]) ==
            Out(DirHeader(ds[k]) + FilesLines(ds[k].files, beyond)) + Out(DirsLines(ds[k + 1..], beyond) + [""])
  {
    hide DirHeader, FilesLines, Out;
    assert Sound(ds[k]);
    assert ds[k..][1..] == ds[k + 1..];
    var here, rest := DirHeader(ds[k]) + FilesLines(ds[k].files, beyond), DirsLines(ds[k + 1..], beyond);
    assert DirsLines(ds[k..], beyond) == here + rest;
    Regroup(here, rest, [""]);
    OutOfBoth(here, rest + [""]);
  }

  lemma {:induction false} OneMorePackage(ps: seq<Package>, p: Package, beyond: Beyond)
    requires AllWritable(ps) && Writable(p)
    ensures AllWritable(ps + [p])
    ensures PackagesLines(ps + [p], beyond) == PackagesLines(ps, beyond) + PackageLines(p, beyond)
  {
    hide Writable, InfoLines, DirsLines;
    if ps == [] {
      assert ps + [p] == [p];
      assert PackagesLines([], beyond) == [];
    } else {
      assert (ps + [p])[1..] == ps[1..] + [p];
      OneMorePackage(ps[1..], p, beyond);
    }
  }

  lemma DbTextGrows(ps: seq<Package>, k: nat, beyond: Beyond)
    requires k < |ps| && AllWritable(ps[..k]) && Writable(ps[k])
    ensures AllWritable(ps[..k + 1]) && DbText(ps[..k + 1], beyond) == DbText(ps[..k], beyond) + Out(PackageLines(ps[k], beyond))
  {
    hide Writable, PackagesLines, PackageLines, Joined;
    assert ps[..k + 1] == ps[..k] + [ps[k]];
    OneMorePackage(ps[..k], ps[k], beyond);
    OutOfBoth(PackagesLines(ps[..k], beyond), PackageLines(ps[k], beyond));
  }

  lemma {:induction false} DbTextExtends(ps: seq<Package>, i: nat, k: nat, beyond: Beyond) returns (more: string)
    requires i <= k <= |ps| && AllWritable(ps)
    ensures AllWritable(ps[..i]) && AllWritable(ps[..k])
    ensures DbText(ps[..k], beyond) == DbText(ps[..i], beyond) + more
    decreases k - i
  {
    hide DbText, Writable, PackageLines;
    assert forall j | 0 <= j < k - 1 :: ps[..k - 1][j] == ps[j];
    if i == k {
      more := "";
    } else {
      more := DbTextExtends(ps, i, k - 1, beyond);
      assert Writable(ps[k - 1]);
      DbTextGrows(ps, k - 1, beyond);
      more := more + Out(PackageLines(ps[k - 1], beyond));
    }
  }

  lemma FitIsWritable(ps: seq<Package>, beyond: Beyond)
    requires AllNarrow(ps) && AllFit(ps, beyond)
    ensures AllWritable(ps)
  {
    assert forall k | 0 <= k < |ps| :: PackageFits(ps[k], beyond) && Narrow(ps[k]);
  }

  lemma PackageIsLong(p: Package, beyond: Beyond)
    requires Writable(p)
    ensures |Out(PackageLines(p, beyond))| >= 2
  {
    hide DirsLines, CsumText, UintText, DepsText;
    var lines := PackageLines(p, beyond);
    var first := InfoLines(p.info, beyond);
    assert lines[0] == first[0];
    assert |lines[0]| >= 2;
  }

  /** apk_db_write_fdb: the text is written as far as the stream takes it, and it succeeds exactly if
      every buffer holds and the stream takes everything but, perhaps, the last newline. */
  method WriteFdb(os: OutStream, ps: seq<Package>, beyond: Beyond) returns (ok: bool)
    requires AllNarrow(ps)
    modifies os
    ensures AllFit(ps, beyond) ==> AllWritable(ps) && os.Now() == old(os.Now()).Take(DbText(ps, beyond))
    ensures ok == (AllFit(ps, beyond) && AllWritable(ps) && |DbText(ps, beyond)| <= old(os.room) + 1)
  {
    OutOfNone();
    var buffer := new PushBuffer(FDB_BUFFER);
    ok := WritePackages(os, buffer, ps, beyond);
  }

  /** A stream that takes everything but the last byte: the missing end goes unnoticed. */
  method LastNewlineGoesUnnoticed(ps: seq<Package>, beyond: Beyond) returns (text: string, ok: bool)
    requires ps != [] && AllNarrow(ps) && AllFit(ps, beyond) && AllWritable(ps)
    ensures ok && |DbText(ps, beyond)| >= 1 && text == DbText(ps, beyond)[..|DbText(ps, beyond)| - 1]
  {
    hide DbText, AllFit, AllWritable, AllNarrow;
    DbTextNotEmpty(ps, beyond);
    var os := new OutStream(|DbText(ps, beyond)| - 1);
    ok := WriteFdb(os, ps, beyond);
    text := os.text;
  }

  lemma DbTextNotEmpty(ps: seq<Package>, beyond: Beyond)
    requires ps != [] && AllWritable(ps)
    ensures |DbText(ps, beyond)| >= 2
  {
    hide DbText, Out, PackageLines, Writable;
    var k := |ps| - 1;
    assert AllWritable(ps[..k]) && Writable(ps[k]) && ps[..k + 1] == ps;
    DbTextGrows(ps, k, beyond);
    PackageIsLong(ps[k], beyond);
  }

  method WritePackages(os: OutStream, buffer: PushBuffer, ps: seq<Package>, beyond: Beyond) returns (ok: bool)
    requires buffer.Valid() && Holds(buffer, []) && buffer.buf.Length == FDB_BUFFER && AllNarrow(ps)
    modifies os, buffer, buffer.buf
    ensures AllFit(ps, beyond) ==> AllWritable(ps) && os.Now() == old(os.Now()).Take(DbText(ps, beyond))
    ensures ok == (AllFit(ps, beyond) && AllWritable(ps) && |DbText(ps, beyond)| <= old(os.room) + 1)
  {
    hide Out, DbText, PackageLines, Holds, PushBuffer.Valid, PackageFits, Writable, AllWritable, Narrow, Sink.Take;
    ghost var s := os.Now();
    NoPackages(beyond);
    TakeNothing(s);
    assert ps[..0] == [];
    if AllFit(ps, beyond) { FitIsWritable(ps, beyond); }
    for k := 0 to |ps|
      invariant buffer.Valid() && Holds(buffer, [])
      invariant AllWritable(ps[..k]) && os.Now() == s.Take(DbText(ps[..k], beyond))
      invariant |DbText(ps[..k], beyond)| <= s.room + 1
      invariant forall j | 0 <= j < k :: PackageFits(ps[j], beyond)
    {
      assert Narrow(ps[k]);
      ok := WritePackage(os, buffer, ps[k], beyond);
      if PackageFits(ps[k], beyond) { PackageTaken(s, ps, k, beyond); }
      if !ok {
        if AllFit(ps, beyond) { StoppedAt(s, ps, k, beyond); }
        return;
      }
    }
    assert ps[..|ps|] == ps;
    return true;
  }

  lemma PackageTaken(s: Sink, ps: seq<Package>, k: nat, beyond: Beyond)
    requires k < |ps| && AllWritable(ps[..k]) && Writable(ps[k]) && |DbText(ps[..k], beyond)| <= s.room + 1
    ensures AllWritable(ps[..k + 1])
    ensures
      var before, here := DbText(ps[..k], beyond), Out(PackageLines(ps[k], beyond));
      && s.Take(before).Take(here) == s.Take(DbText(ps[..k + 1], beyond))
      && (|DbText(ps[..k + 1], beyond)| <= s.room + 1 <==> |here| <= s.Take(before).room + 1)
  {
    hide Out, DbText, PackageLines, Writable, AllWritable;
    DbTextGrows(ps, k, beyond);
    TakeBoth(s, DbText(ps[..k], beyond), Out(PackageLines(ps[k], beyond)));
    PackageIsLong(ps[k], beyond);
  }

  lemma StoppedAt(s: Sink, ps: seq<Package>, k: nat, beyond: Beyond)
    requires k < |ps| && AllWritable(ps) && AllWritable(ps[..k + 1]) && |DbText(ps[..k + 1], beyond)| > s.room + 1
    ensures s.Take(DbText(ps[..k + 1], beyond)) == s.Take(DbText(ps, beyond)) && |DbText(ps, beyond)| > s.room + 1
  {
    hide DbText, AllWritable;
    var more := DbTextExtends(ps, k + 1, |ps|, beyond);
    assert ps[..|ps|] == ps;
    TakeFull(s, DbText(ps[..k + 1], beyond), more);
  }

  lemma NoPackages(beyond: Beyond)
    ensures AllWritable([]) && DbText([], beyond) == ""
  {
  }

  // ----- Reading -----

  method ReadField(v: string, c: Checksum) returns (rest: Blob, c': Checksum)
    requires c.Valid()
    ensures (rest, c') == PullField(v, c)
  {
    if !CsumReadable(Some(v)) { return None, c; }
    rest, c' := ReadCsum(Some(v), c);
  }

  /** apk_pkg_add_info. */
  method ReadInfo(p: Draft, f: char, v: string) returns (p': Draft, ok: bool)
    requires p.csum.Valid()
    ensures (p', ok) == AddInfo(p, f, v)
  {
    hide PullField, PullUint, ParseDeps;
    p', ok := p, true;
    match f {
      case 'P' => p' := p.(name := Some(v));
      case 'V' => p' := p.(version := Some(v));
      case 'T' => p' := p.(description := Some(v));
      case 'U' => p' := p.(url := Some(v));
      case 'L' => p' := p.(license := Some(v));
      case 'A' => p' := p.(arch := Some(v));
      case 'D' =>
        var deps := ReadDeps(v);
        p' := p.(deps := p.deps + deps);
      case 'C' =>
        var rest, c := ReadField(v, p.csum);
        p', ok := p.(csum := c), rest.Some?;
      case 'S' =>
        var size, _ := ReadUint(v, 10);
        p' := p.(size := size);
      case 'I' =>
        var size, _ := ReadUint(v, 10);
        p' := p.(installedSize := size);
      case _ =>
        ok := false;
        if f !in FDB_FIELDS && !('a' <= f <= 'z') { p' := p.(installable := false); }
    }
  }

  method ReadNumberField(b: Blob, radix: Radix) returns (n: nat, rest: Blob)
    ensures (n, rest) == PullNumber(b, radix)
  {
    if b.None? { return 0, None; }
    var v, r := ReadUint(b.value, radix);
    return v, Some(r);
  }

  method ReadOwner(v: string) returns (uid: nat, gid: nat, mode: nat, rest: Blob)
    ensures (uid, gid, mode, rest) == PullOwner(v)
  {
    hide PullNumber;
    uid, rest := ReadNumberField(Some(v), 10);
    gid, rest := ReadNumberField(PullColon(rest), 10);
    mode, rest := ReadNumberField(PullColon(rest), 8);
  }

  method LookUp(files: seq<FileEntry>, dir: string, name: string) returns (r: Option<nat>)
    ensures r == FindFile(files, dir, name)
  {
    var k: nat := |files|;
    assert files[..k] == files;
    while k > 0 && (files[k - 1].dir != dir || files[k - 1].name != name)
      invariant k <= |files| && FindFile(files[..k], dir, name) == FindFile(files, dir, name)
    {
      assert files[..k][..k - 1] == files[..k - 1];
      k := k - 1;
    }
    if k == 0 { return None; }
    return Some(k - 1);
  }

  /** The variables of apk_db_index_read: `pkg` is being read, `ipkg` once it is installed. */
  class Loader {
    const mode: Mode
    var packages: seq<Draft>
    var files: seq<FileEntry>
    var pkg: Option<Draft>
    var ipkg: bool
    var listed: bool
    var diri: bool
    var file: Option<nat>

    ghost function State(): Reader
      reads this
    {
      Reader(packages, pkg, ipkg, listed, diri, file, files, mode)
    }

    constructor (mode: Mode)
      ensures State() == Begin(mode)
    {
      this.mode := mode;
      packages, files := [], [];
      pkg, ipkg, listed, diri, file := None, false, false, false, None;
    }

    method EndPackage()
      requires State().Ok() && pkg.Some?
      modifies this
      ensures ReadLine(old(State()), "", false) == Some(State())
    {
      if listed || !mode.InstalledMode? { packages := packages + [Offered(pkg.value, mode)]; }
      pkg, ipkg, listed, diri := None, false, false, false;
    }

    /** The entries of directories and files, for field `f` with value `v`. */
    method FdbEntry(f: char, v: string, force: bool) returns (ok: bool)
      requires State().Ok() && pkg.Some?
      modifies this
      ensures ok == AddFdb(old(State()), f, v, force).Some?
      ensures ok ==> State() == AddFdb(old(State()), f, v, force).value
    {
      hide PullOwner, PullField, FindFile;
      var p := pkg.value;
      match f {
        case 'F' =>
          if p.name.None? { return false; }
          pkg, diri := Some(p.(dirs := p.dirs + [DraftDir(DirName(v), 0, 0, 0, [])])), true;
        case 'M' =>
          if !diri { return false; }
          var uid, gid, mode, rest := ReadOwner(v);
          if rest.None? { return false; }
          pkg := Some(SetLastDir(p, p.dirs[|p.dirs| - 1].(uid := uid, gid := gid, mode := mode)));
        case 'R' =>
          if !diri { return false; }
          FileGet(v);
        case 'Z' =>
          if file.None? { return false; }
          var e := files[file.value];
          var rest, c := ReadField(v, e.csum);
          if rest.None? { return false; }
          files := files[file.value := e.(csum := c)];
        case _ =>
          if !force { return false; }
          pkg := Some(p.(installable := true));
      }
      return true;
    }

    /** apk_db_file_get: a path that is known already stays where it is. */
    method FileGet(name: string)
      requires State().Ok() && diri
      modifies this
      ensures Some(State()) == AddFdb(old(State()), 'R', name, false)
    {
      hide FindFile;
      var p := pkg.value;
      var d := p.dirs[|p.dirs| - 1];
      file := LookUp(files, d.name, name);
      if file.None? {
        pkg, file := Some(SetLastDir(p, d.(files := d.files + [|files|]))), Some(|files|);
        files := files + [FileEntry(d.name, name, NoChecksum())];
      }
    }

    method Enter(line: string, force: bool) returns (ok: bool)
      requires State().Ok()
      modifies this
      ensures ok == ReadLine(old(State()), line, force).Some?
      ensures ok ==> State() == ReadLine(old(State()), line, force).value
    {
      hide AddInfo, AddFdb;
      if |line| < 2 || line[1] != ':' {
        if pkg.Some? { EndPackage(); }
        return true;
      }
      var f, v := line[0], line[2..];
      if pkg.None? { pkg := Some(NewDraft()); }
      var p, known := ReadInfo(pkg.value, f, v);
      pkg := Some(p);
      if known {
        if f == 'S' && !ipkg && mode.InstalledMode? { ipkg, listed := true, p.name.Some?; }
        return true;
      }
      if !ipkg { return true; }
      ok := FdbEntry(f, v, force);
    }

    /** apk_db_index_read. */
    method Load(reader: BufferedReader, force: bool) returns (ok: bool)
      requires State() == Begin(mode) && reader.Valid()
      modifies this, reader, reader.stream, reader.buffer
      ensures reader.Valid()
      ensures ok == ReadLines(Begin(mode), Chunks(old(reader.Rest()), '\n'), force).Some?
      ensures ok ==> State() == ReadLines(Begin(mode), Chunks(old(reader.Rest()), '\n'), force).value
    {
      hide ReadLine, Deliver, AddInfo, AddFdb;
      while true
        invariant reader.Valid() && State().Ok()
        invariant ReadLines(State(), Chunks(reader.Rest(), '\n'), force) ==
                  ReadLines(Begin(mode), Chunks(old(reader.Rest()), '\n'), force)
        decreases |reader.Rest()|
      {
        ghost var lines := Chunks(reader.Rest(), '\n');
        var line := reader.Read(Some('\n'));
        if line.None? { return true; }
        assert lines[0] == line.value && lines[1..] == Chunks(reader.Rest(), '\n');
        ok := Enter(line.value, force);
        if !ok { return; }
      }
    }
  }

  // ----- What the writer accepts, the reader takes -----

  /** The dependencies are the one line that does not go through a buffer of the writer's. */
  predicate DepLinesFit(ps: seq<Package>) {
    forall k | 0 <= k < |ps| :: ps[k].info.deps != [] ==> |Line('D', DepsText(ps[k].info.deps))| < SIZE
  }

  predicate Brief(lines: seq<string>) { forall k | 0 <= k < |lines| :: |lines[k]| < SIZE }

  lemma {:induction false} LineInOut(lines: seq<string>, k: nat)
    requires k < |lines|
    ensures |lines[k]| < |Out(lines)|
  {
    if k > 0 { LineInOut(lines[1..], k - 1); }
  }

  lemma BriefWhen(lines: seq<string>)
    requires |Out(lines)| <= SIZE
    ensures Brief(lines)
  {
    forall k | 0 <= k < |lines|
      ensures |lines[k]| < SIZE
    {
      LineInOut(lines, k);
    }
  }

  lemma BriefInfo(i: Info, beyond: Beyond)
    requires InfoFits(i, beyond) && (i.deps != [] ==> |Line('D', DepsText(i.deps))| < SIZE)
    ensures Brief(InfoLines(i, beyond))
  {
    hide Out, Line, CsumText, UintText, DepsText;
    var first := InfoLines(i.(deps := []), beyond);
    BriefWhen(first);
    if i.deps == [] {
      assert i.(deps := []) == i;
    } else {
      assert InfoLines(i, beyond) == first + [Line('D', DepsText(i.deps))];
    }
  }

  lemma {:induction false} BriefFiles(fs: seq<File>, beyond: Beyond)
    requires forall k | 0 <= k < |fs| :: fs[k].csum.Valid() && |Out(FileLines(fs[k], beyond))| <= SIZE
    ensures Brief(FilesLines(fs, beyond))
  {
    hide Out, FileLines;
    if fs != [] {
      BriefWhen(FileLines(fs[0], beyond));
      BriefFiles(fs[1..], beyond);
    }
  }

  lemma {:induction false} BriefDirs(ds: seq<Dir>, beyond: Beyond)
    requires AllSound(ds) && forall k | 0 <= k < |ds| :: DirFits(ds[k], beyond)
    ensures Brief(DirsLines(ds, beyond))
    decreases ds
  {
    hide Out, FileLines, FilesLines, DirHeader;
    if ds != [] {
      assert Sound(ds[0]) && DirFits(ds[0], beyond);
      BriefWhen(DirHeader(ds[0]));
      BriefFiles(ds[0].files, beyond);
      BriefDirs(ds[1..], beyond);
    }
  }

  lemma {:induction false} BriefPackages(ps: seq<Package>, beyond: Beyond)
    requires AllWritable(ps) && AllNarrow(ps) && AllFit(ps, beyond) && DepLinesFit(ps)
    ensures Brief(PackagesLines(ps, beyond))
    decreases ps
  {
    hide InfoLines, DirsLines, InfoFits, DirFits, DepsText;
    if ps != [] {
      assert Writable(ps[0]) && Narrow(ps[0]) && PackageFits(ps[0], beyond);
      BriefInfo(ps[0].info, beyond);
      BriefDirs(ps[0].dirs, beyond);
      BriefPackages(ps[1..], beyond);
    }
  }

  lemma {:induction false} JoinedShort(lines: seq<string>)
    requires Brief(lines) && OneLines(lines)
    ensures Short(Out(lines), '\n')
  {
    hide Split;
    if lines == [] {
      NothingShort();
    } else {
      JoinedShort(lines[1..]);
      assert OneLine(lines[0]);
      assert Out(lines) == lines[0] + ['\n'] + Out(lines[1..]);
      SplitAt(lines[0], '\n', Out(lines[1..]));
    }
  }

  lemma NothingShort()
    ensures Short("", '\n')
  {
  }

  /** Whatever the writer accepts, with dependency lines that fit the reader's buffer, is loaded again
      through it. */
  lemma LoadedIsWritten(ps: seq<Package>, beyond: Beyond, force: bool)
    requires AllNarrow(ps) && AllFit(ps, beyond) && AllWritable(ps) && DepLinesFit(ps)
    requires LegalPackages(ps) && SinglyOwned(ps)
    ensures Short(DbText(ps, beyond), '\n')
    ensures Rebuilt(ReadLines(START, Chunks(DbText(ps, beyond), '\n'), force), ps)
  {
    hide ReadLines, Rebuilt, PackagesLines, Short, Chunks, Segments, AllFit, AllNarrow, SinglyOwned;
    BriefPackages(ps, beyond);
    PackagesOneLines(ps, beyond);
    JoinedShort(PackagesLines(ps, beyond));
    BufferedReaderSplits(DbText(ps, beyond), '\n');
    DatabaseRoundTrip(ps, beyond, force);
  }
}
