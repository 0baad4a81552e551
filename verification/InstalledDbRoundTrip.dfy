/** Reading what was written gives the installed packages back. */
module InstalledDbRoundTrip {
  import opened Wrappers
  import opened Version
  import opened VersionText
  import opened Codec
  import opened Dependencies
  import opened Splitting
  import opened InstalledDb

  // ----- Which databases come back, and in which form -----

  predicate OneLine(s: string) { '\n' !in s }

  predicate LegalInfo(i: Info) {
    && Summed(i.csum)
    && OneLine(i.name) && OneLine(Text(i.version)) && OneLine(Text(i.arch)) && OneLine(Text(i.description))
    && OneLine(Text(i.url)) && OneLine(Text(i.license))
    && i.size < WRAP && i.installedSize < WRAP
    && forall k | 0 <= k < |i.deps| :: Legal(i.deps[k])
  }

  predicate LegalDir(d: Dir) {
    && OneLine(d.name) && (d.name != "" ==> d.name[|d.name| - 1] != '/')
    && d.uid < WRAP && d.gid < WRAP && d.mode < WRAP
    && forall k | 0 <= k < |d.files| :: d.files[k].csum.Valid() && OneLine(d.files[k].name)
  }

  predicate LegalDirs(ds: seq<Dir>) { forall k | 0 <= k < |ds| :: LegalDir(ds[k]) }

  predicate LegalPackage(p: Package) { LegalInfo(p.info) && LegalDirs(p.dirs) }

  predicate LegalPackages(ps: seq<Package>) { forall k | 0 <= k < |ps| :: LegalPackage(ps[k]) }

  /** Unused bytes behind a digest are zero. */
  function NormSum(c: Checksum): (n: Checksum)
    requires c.Valid()
    ensures n.Valid()
  {
    Checksum(c.kind, c.Digest() + Zeros(20)[c.kind.Size()..])
  }

  /** An absent string is written, and read back, as an empty one; only the architecture is left out. */
  function NormInfo(i: Info): Info
    requires i.csum.Valid()
  {
    i.(csum := NormSum(i.csum), version := Some(Text(i.version)), description := Some(Text(i.description)),
       url := Some(Text(i.url)), license := Some(Text(i.license)))
  }

  function NormFile(f: File): File
    requires f.csum.Valid()
  {
    f.(csum := NormSum(f.csum))
  }

  function NormDir(d: Dir): Dir
    requires Sound(d)
  {
    d.(files := seq(|d.files|, k requires 0 <= k < |d.files| => NormFile(d.files[k])))
  }

  function Norm(p: Package): Package
    requires Writable(p)
  {
    Package(NormInfo(p.info), seq(|p.dirs|, k requires 0 <= k < |p.dirs| => NormDir(p.dirs[k])))
  }

  // ----- Lines -----

  lemma ReadCons(r: Reader, line: string, lines: seq<string>, force: bool)
    requires r.Ok() && ReadLine(r, line, force).Some?
    ensures ReadLines(r, [line] + lines, force) == ReadLines(ReadLine(r, line, force).value, lines, force)
  {
  }

  function Draw(r: Reader): Draft { if r.current.Some? then r.current.value else NewDraft() }

  /** The reader after a field of the index. */
  function Put(r: Reader, f: char, v: string): (r': Reader)
    requires r.Ok()
    ensures r'.Ok()
  {
    var p := AddInfo(Draw(r), f, v).0;
    if f == 'S' && !r.installed && r.mode.InstalledMode? then r.(current := Some(p), installed := true, listed := p.name.Some?)
    else r.(current := Some(p))
  }

  lemma InfoLine(r: Reader, f: char, v: string, lines: seq<string>, force: bool)
    requires r.Ok() && AddInfo(Draw(r), f, v).1
    ensures ReadLines(r, [Line(f, v)] + lines, force) == ReadLines(Put(r, f, v), lines, force)
  {
  }

  /** The same for the other lines, once the package is installed. */
  lemma FdbLine(r: Reader, f: char, v: string, lines: seq<string>, force: bool)
    requires r.Ok() && r.installed && f in FDB_FIELDS && AddFdb(r, f, v, force).Some?
    ensures ReadLines(r, [Line(f, v)] + lines, force) == ReadLines(AddFdb(r, f, v, force).value, lines, force)
  {
    hide AddFdb, ReadLines;
    var line := Line(f, v);
    assert line[0] == f && line[1] == ':' && line[2..] == v;
    assert AddInfo(r.current.value, f, v) == (r.current.value, false);
    assert r.(current := Some(r.current.value)) == r;
    ReadCons(r, line, lines, force);
  }

  // ----- The index entry -----

  function DraftOf(i: Info): Draft
    requires i.csum.Valid()
  {
    Draft(NormSum(i.csum), Some(i.name), Some(Text(i.version)), i.arch, i.size, i.installedSize,
          Some(Text(i.description)), Some(Text(i.url)), Some(Text(i.license)), i.deps, [], true, {})
  }

  lemma CsumField(c: Checksum, beyond: Beyond)
    requires Summed(c)
    ensures PullField(CsumText(c, beyond).value, NoChecksum()) == (Some(""), NormSum(c))
  {
    CsumRoundTrip(c, beyond, "", NoChecksum());
    assert CsumText(c, beyond).value + "" == CsumText(c, beyond).value;
  }

  lemma NumberField(v: nat)
    requires v < WRAP
    ensures PullUint(UintText(v, 10), 10).0 == v
  {
    UintRoundTrip(v, 10, "");
    assert UintText(v, 10) + "" == UintText(v, 10);
  }

  lemma InfoRead(r: Reader, i: Info, beyond: Beyond, lines: seq<string>, force: bool)
    requires r.Ok() && r.current.None? && LegalInfo(i)
    ensures ReadLines(r, InfoLines(i, beyond) + lines, force) ==
            ReadLines(r.(current := Some(DraftOf(i)), installed := r.mode.InstalledMode?, listed := r.mode.InstalledMode?), lines, force)
  {
    hide ReadLines, InfoLines, InfoHeadLines, InfoTail;
    InfoLinesAre(i, beyond);
    Regroup(InfoHeadLines(i, beyond), InfoTail(i), lines);
    InfoHeadRead(r, i, beyond, InfoTail(i) + lines, force);
    InfoTailRead(InfoHead(r, i, beyond), i, lines, force);
  }

  lemma InfoLinesAre(i: Info, beyond: Beyond)
    requires Summed(i.csum)
    ensures InfoLines(i, beyond) == InfoHeadLines(i, beyond) + InfoTail(i)
  {
  }

  function InfoHeadLines(i: Info, beyond: Beyond): seq<string>
    requires Summed(i.csum)
  {
    [Line('C', CsumText(i.csum, beyond).value)] + ([Line('P', i.name)] + ([Line('V', Text(i.version))]
    + (if i.arch.Some? then [Line('A', i.arch.value)] else [])))
  }

  function InfoTail(i: Info): seq<string> {
    [Line('S', UintText(i.size, 10))] + ([Line('I', UintText(i.installedSize, 10))]
    + ([Line('T', Text(i.description))] + ([Line('U', Text(i.url))] + ([Line('L', Text(i.license))]
    + (if i.deps != [] then [Line('D', DepsText(i.deps))] else [])))))
  }

  function HeadDraft(i: Info): Draft
    requires i.csum.Valid()
  {
    Draft(NormSum(i.csum), Some(i.name), Some(Text(i.version)), i.arch, 0, 0, None, None, None, [], [], true, {})
  }

  function InfoHead(r: Reader, i: Info, beyond: Beyond): Reader
    requires i.csum.Valid()
  {
    r.(current := Some(HeadDraft(i)))
  }

  lemma InfoHeadRead(r: Reader, i: Info, beyond: Beyond, lines: seq<string>, force: bool)
    requires r.Ok() && r.current.None? && LegalInfo(i)
    ensures ReadLines(r, InfoHeadLines(i, beyond) + lines, force) == ReadLines(InfoHead(r, i, beyond), lines, force)
  {
    hide ReadLines, CsumText, PullField, Zeros, NormSum;
    CsumField(i.csum, beyond);
    var c, p, v := CsumText(i.csum, beyond).value, i.name, Text(i.version);
    var arch := if i.arch.Some? then [Line('A', i.arch.value)] else [];
    var r1 := Put(r, 'C', c);
    var r2 := Put(r1, 'P', p);
    var r3 := Put(r2, 'V', v);
    assert InfoHeadLines(i, beyond) + lines ==
           [Line('C', c)] + ([Line('P', p)] + ([Line('V', v)] + (arch + lines)));
    InfoLine(r, 'C', c, [Line('P', p)] + ([Line('V', v)] + (arch + lines)), force);
    InfoLine(r1, 'P', p, [Line('V', v)] + (arch + lines), force);
    InfoLine(r2, 'V', v, arch + lines, force);
    if i.arch.Some? {
      InfoLine(r3, 'A', i.arch.value, lines, force);
    } else {
      assert arch + lines == lines;
    }
  }

  lemma InfoTailRead(r: Reader, i: Info, lines: seq<string>, force: bool)
    requires LegalInfo(i) && r.Ok() && r.current == Some(HeadDraft(i)) && !r.installed && !r.listed
    ensures ReadLines(r, InfoTail(i) + lines, force) ==
            ReadLines(r.(current := Some(DraftOf(i)), installed := r.mode.InstalledMode?, listed := r.mode.InstalledMode?), lines, force)
  {
    hide ReadLines, UintText, DepsText, ParseDeps, NormSum, Line, OneLine, Legal, AddInfo;
    var t, u, l := Text(i.description), Text(i.url), Text(i.license);
    var deps := if i.deps != [] then [Line('D', DepsText(i.deps))] else [];
    var l3 := [Line('T', t)] + ([Line('U', u)] + ([Line('L', l)] + (deps + lines)));
    assert InfoTail(i) + lines == [Line('S', UintText(i.size, 10))] + ([Line('I', UintText(i.installedSize, 10))] + l3);
    var r2 := SizesRead(r, i, l3, force);
    var r5 := TextsRead(r2, t, u, l, deps + lines, force);
    if i.deps != [] {
      DepsPut(r5, i.deps);
      InfoLine(r5, 'D', DepsText(i.deps), lines, force);
    } else {
      assert deps + lines == lines;
    }
  }

  lemma SizesRead(r: Reader, i: Info, lines: seq<string>, force: bool) returns (r': Reader)
    requires LegalInfo(i) && r.Ok() && r.current == Some(HeadDraft(i)) && !r.installed && !r.listed
    ensures r' == r.(current := Some(HeadDraft(i).(size := i.size, installedSize := i.installedSize)),
                     installed := r.mode.InstalledMode?, listed := r.mode.InstalledMode?)
    ensures r'.Ok()
    ensures ReadLines(r, [Line('S', UintText(i.size, 10))] + ([Line('I', UintText(i.installedSize, 10))] + lines), force)
            == ReadLines(r', lines, force)
  {
    hide ReadLines, UintText, PullUint, NormSum, Line, OneLine, Legal;
    NumberField(i.size);
    NumberField(i.installedSize);
    var s, n := UintText(i.size, 10), UintText(i.installedSize, 10);
    var r1 := Put(r, 'S', s);
    r' := Put(r1, 'I', n);
    InfoLine(r, 'S', s, [Line('I', n)] + lines, force);
    InfoLine(r1, 'I', n, lines, force);
  }

  lemma TextsRead(r: Reader, t: string, u: string, l: string, lines: seq<string>, force: bool) returns (r': Reader)
    requires r.Ok() && r.current.Some?
    ensures r' == r.(current := Some(r.current.value.(description := Some(t), url := Some(u), license := Some(l))))
    ensures r'.Ok()
    ensures ReadLines(r, [Line('T', t)] + ([Line('U', u)] + ([Line('L', l)] + lines)), force) == ReadLines(r', lines, force)
  {
    hide ReadLines, Line;
    var r1 := Put(r, 'T', t);
    var r2 := Put(r1, 'U', u);
    r' := Put(r2, 'L', l);
    InfoLine(r, 'T', t, [Line('U', u)] + ([Line('L', l)] + lines), force);
    InfoLine(r1, 'U', u, [Line('L', l)] + lines, force);
    InfoLine(r2, 'L', l, lines, force);
  }

  lemma DepsPut(r: Reader, deps: seq<Dep>)
    requires r.Ok() && r.current.Some? && r.current.value.deps == []
    requires forall k | 0 <= k < |deps| :: Legal(deps[k])
    ensures AddInfo(Draw(r), 'D', DepsText(deps)).1
    ensures Put(r, 'D', DepsText(deps)) == r.(current := Some(r.current.value.(deps := deps)))
  {
    hide DepsText, Legal, AddInfo, DraftOf;
    DepsField(Draw(r), deps);
  }

  lemma DepsField(p: Draft, deps: seq<Dep>)
    requires p.csum.Valid() && p.deps == [] && forall k | 0 <= k < |deps| :: Legal(deps[k])
    ensures AddInfo(p, 'D', DepsText(deps)) == (p.(deps := deps), true)
  {
    hide DepsText, ParseDeps, Legal, PullField, PullUint;
    DepsRoundTrip(deps);
    assert AddInfo(p, 'D', DepsText(deps)) == (p.(deps := p.deps + ParseDeps(DepsText(deps))), true);
    assert [] + deps == deps;
  }

  // ----- Directories and files -----

  function Entry(dir: string, f: File): FileEntry
    requires f.csum.Valid()
  {
    FileEntry(dir, f.name, NormSum(f.csum))
  }

  function Entries(dir: string, fs: seq<File>): (es: seq<FileEntry>)
    requires forall k | 0 <= k < |fs| :: fs[k].csum.Valid()
    ensures |es| == |fs| && forall k | 0 <= k < |fs| :: es[k] == Entry(dir, fs[k])
  {
    seq(|fs|, k requires 0 <= k < |fs| => Entry(dir, fs[k]))
  }

  function Ids(first: nat, n: nat): (ids: seq<nat>)
    ensures |ids| == n && forall k | 0 <= k < n :: ids[k] == first + k
  {
    seq(n, k requires 0 <= k < n => first + k)
  }

  predicate Absent(files: seq<FileEntry>, dir: string, name: string) {
    forall k | 0 <= k < |files| :: files[k].dir != dir || files[k].name != name
  }

  /** No file of the directory is known yet, and its names are distinct. */
  predicate NewFiles(files: seq<FileEntry>, dir: string, fs: seq<File>) {
    && (forall k | 0 <= k < |fs| :: Absent(files, dir, fs[k].name))
    && (forall j, k | 0 <= j < k < |fs| :: fs[j].name != fs[k].name)
  }

  /** The reader inside a directory whose file list is `ids`, with the file table `files`. */
  function Within(r: Reader, d: DraftDir, ids: seq<nat>, files: seq<FileEntry>, file: Option<nat>): Reader
    requires r.inDir && r.Ok()
  {
    r.(current := Some(SetLastDir(r.current.value, d.(files := ids))), files := files, file := file)
  }

  predicate InDir(r: Reader, d: DraftDir) {
    && r.installed && r.inDir && r.current.Some? && r.current.value.dirs != []
    && r.current.value.dirs[|r.current.value.dirs| - 1] == d
  }

  lemma FileRead(r: Reader, d: DraftDir, f: File, beyond: Beyond, lines: seq<string>, force: bool)
    requires r.Ok() && InDir(r, d) && f.csum.Valid() && OneLine(f.name) && Absent(r.files, d.name, f.name)
    ensures
      var n := |r.files|;
      var r' := Within(r, d, d.files + [n], r.files + [Entry(d.name, f)], Some(n));
      r'.Ok() && ReadLines(r, FileLines(f, beyond) + lines, force) == ReadLines(r', lines, force)
  {
    hide ReadLines, CsumText, PullField, Zeros;
    var n := |r.files|;
    var r1 := AddFdb(r, 'R', f.name, force).value;
    assert r1 == Within(r, d, d.files + [n], r.files + [FileEntry(d.name, f.name, NoChecksum())], Some(n));
    if f.csum.kind.NoSum? {
      assert FileLines(f, beyond) + lines == [Line('R', f.name)] + lines;
      FdbLine(r, 'R', f.name, lines, force);
      assert NormSum(f.csum) == NoChecksum() by { assert f.csum.Digest() == []; }
    } else {
      var sum := CsumText(f.csum, beyond).value;
      assert FileLines(f, beyond) + lines == [Line('R', f.name)] + ([Line('Z', sum)] + lines);
      FdbLine(r, 'R', f.name, [Line('Z', sum)] + lines, force);
      CsumField(f.csum, beyond);
      assert r1.files[n := Entry(d.name, f)] == r.files + [Entry(d.name, f)];
      FdbLine(r1, 'Z', sum, lines, force);
    }
  }

  lemma WithinAgain(
    r: Reader, d: DraftDir, ids1: seq<nat>, files1: seq<FileEntry>, file1: Option<nat>,
    ids: seq<nat>, files: seq<FileEntry>, file: Option<nat>)
    requires r.Ok() && InDir(r, d) && Within(r, d, ids1, files1, file1).Ok()
    ensures
      var r1, d1 := Within(r, d, ids1, files1, file1), d.(files := ids1);
      InDir(r1, d1) && Within(r1, d1, ids, files, file) == Within(r, d, ids, files, file)
  {
  }

  lemma NewFilesTail(files: seq<FileEntry>, dir: string, fs: seq<File>)
    requires fs != [] && NewFiles(files, dir, fs) && fs[0].csum.Valid()
    ensures Absent(files, dir, fs[0].name) && NewFiles(files + [Entry(dir, fs[0])], dir, fs[1..])
  {
  }

  lemma {:induction false} FilesRead(
    r: Reader, d: DraftDir, fs: seq<File>, beyond: Beyond, lines: seq<string>, force: bool) returns (file: Option<nat>)
    requires r.Ok() && InDir(r, d) && NewFiles(r.files, d.name, fs)
    requires forall k | 0 <= k < |fs| :: fs[k].csum.Valid() && OneLine(fs[k].name)
    ensures
      var r' := Within(r, d, d.files + Ids(|r.files|, |fs|), r.files + Entries(d.name, fs), file);
      r'.Ok() && ReadLines(r, FilesLines(fs, beyond) + lines, force) == ReadLines(r', lines, force)
    decreases fs
  {
    hide ReadLines, FileLines, NormSum, NewFiles, Absent, SetLastDir, Entry, Entries, Ids, Within;
    if fs == [] {
      assert d.files + Ids(|r.files|, 0) == d.files && r.files + Entries(d.name, fs) == r.files;
      WithinNothing(r, d);
      assert FilesLines(fs, beyond) + lines == lines;
      return r.file;
    }
    var n := |r.files|;
    var more := FilesLines(fs[1..], beyond) + lines;
    assert FilesLines(fs, beyond) + lines == FileLines(fs[0], beyond) + more;
    NewFilesTail(r.files, d.name, fs);
    FileRead(r, d, fs[0], beyond, more, force);
    var d1, files1 := d.(files := d.files + [n]), r.files + [Entry(d.name, fs[0])];
    var r1 := Within(r, d, d1.files, files1, Some(n));
    WithinAgain(r, d, d1.files, files1, Some(n), [], [], None);
    WithinFiles(r, d, d1.files, files1, Some(n));
    file := FilesRead(r1, d1, fs[1..], beyond, lines, force);
    MoreFiles(d.files, r.files, d.name, fs);
    WithinAgain(r, d, d1.files, files1, Some(n), d.files + Ids(n, |fs|), r.files + Entries(d.name, fs), file);
  }

  lemma WithinFiles(r: Reader, d: DraftDir, ids: seq<nat>, files: seq<FileEntry>, file: Option<nat>)
    requires r.inDir && r.Ok()
    ensures Within(r, d, ids, files, file).files == files
  {
  }

  lemma MoreFiles(ids: seq<nat>, files: seq<FileEntry>, dir: string, fs: seq<File>)
    requires fs != [] && forall k | 0 <= k < |fs| :: fs[k].csum.Valid()
    ensures ids + [|files|] + Ids(|files| + 1, |fs| - 1) == ids + Ids(|files|, |fs|)
    ensures files + [Entry(dir, fs[0])] + Entries(dir, fs[1..]) == files + Entries(dir, fs)
  {
    hide NormSum;
  }

  lemma WithinNothing(r: Reader, d: DraftDir)
    requires r.Ok() && InDir(r, d)
    ensures Within(r, d, d.files, r.files, r.file) == r
  {
    assert SetLastDir(r.current.value, d).dirs == r.current.value.dirs;
  }

  lemma OwnerField(d: Dir)
    requires d.uid < WRAP && d.gid < WRAP && d.mode < WRAP
    ensures PullOwner(OwnerText(d)) == (d.uid, d.gid, d.mode, Some(""))
  {
    hide UintText, PullUint;
    var u, g, m := UintText(d.uid, 10), UintText(d.gid, 10), UintText(d.mode, 8);
    assert OwnerText(d) == u + (":" + (g + (":" + m)));
    UintRoundTrip(d.uid, 10, ":" + (g + (":" + m)));
    UintRoundTrip(d.gid, 10, ":" + m);
    UintRoundTrip(d.mode, 8, "");
    assert (":" + (g + (":" + m)))[1..] == g + (":" + m) && (":" + m)[1..] == m && m + "" == m;
  }

  function DraftDirOf(d: Dir, first: nat): DraftDir {
    DraftDir(d.name, d.uid, d.gid, d.mode, Ids(first, |d.files|))
  }

  /** The reader after a whole directory. */
  function WithDir(r: Reader, d: Dir, file: Option<nat>): Reader
    requires r.current.Some? && Sound(d)
  {
    var p := r.current.value;
    r.(current := Some(p.(dirs := p.dirs + [DraftDirOf(d, |r.files|)])), inDir := true,
       files := r.files + Entries(d.name, d.files), file := file)
  }

  /** The two lines that begin a directory. */
  lemma HeaderRead(r: Reader, d: Dir, lines: seq<string>, force: bool)
    requires r.Ok() && r.installed && r.current.Some? && r.current.value.name.Some? && LegalDir(d)
    ensures
      var r' := Opened(r, d);
      r'.Ok() && InDir(r', DraftDirOf(d.(files := []), 0))
      && ReadLines(r, DirHeader(d) + lines, force) == ReadLines(r', lines, force)
  {
    hide ReadLines, OwnerText, PullOwner, AddInfo;
    var owner := OwnerText(d);
    assert DirHeader(d) + lines == [Line('F', d.name)] + ([Line('M', owner)] + lines);
    FdbLine(r, 'F', d.name, [Line('M', owner)] + lines, force);
    var r1 := AddFdb(r, 'F', d.name, force).value;
    OwnerField(d);
    FdbLine(r1, 'M', owner, lines, force);
    var dirs, d0 := r.current.value.dirs, DraftDir(d.name, 0, 0, 0, []);
    assert DirName(d.name) == d.name;
    assert (dirs + [d0])[..|dirs + [d0]| - 1] == dirs;
    assert Ids(0, 0) == [];
  }

  function Opened(r: Reader, d: Dir): Reader
    requires r.current.Some?
  {
    var p := r.current.value;
    r.(current := Some(p.(dirs := p.dirs + [DraftDirOf(d.(files := []), 0)])), inDir := true)
  }

  lemma DirRead(r: Reader, d: Dir, beyond: Beyond, lines: seq<string>, force: bool) returns (file: Option<nat>)
    requires r.Ok() && r.installed && r.current.Some? && r.current.value.name.Some?
    requires LegalDir(d) && Sound(d) && NewFiles(r.files, d.name, d.files)
    ensures WithDir(r, d, file).Ok()
    ensures ReadLines(r, DirHeader(d) + FilesLines(d.files, beyond) + lines, force) ==
            ReadLines(WithDir(r, d, file), lines, force)
  {
    hide ReadLines, FilesLines, DirHeader, NewFiles;
    var more := FilesLines(d.files, beyond) + lines;
    assert DirHeader(d) + FilesLines(d.files, beyond) + lines == DirHeader(d) + more;
    HeaderRead(r, d, more, force);
    var r1, d1 := Opened(r, d), DraftDirOf(d.(files := []), 0);
    file := FilesRead(r1, d1, d.files, beyond, lines, force);
    assert [] + Ids(|r.files|, |d.files|) == Ids(|r.files|, |d.files|);
    var dirs := r.current.value.dirs;
    assert (dirs + [d1])[..|dirs + [d1]| - 1] == dirs;
  }

  // ----- Packages -----

  function DraftDirs(ds: seq<Dir>, first: nat): seq<DraftDir>
    decreases ds
  {
    if ds == [] then [] else [DraftDirOf(ds[0], first)] + DraftDirs(ds[1..], first + |ds[0].files|)
  }

  function AllEntries(ds: seq<Dir>): seq<FileEntry>
    requires AllSound(ds)
    decreases ds
  {
    if ds == [] then [] else assert Sound(ds[0]); Entries(ds[0].name, ds[0].files) + AllEntries(ds[1..])
  }

  /** No path occurs twice. */
  predicate NoneTwice(es: seq<FileEntry>) {
    forall j, k | 0 <= j < k < |es| :: es[j].dir != es[k].dir || es[j].name != es[k].name
  }

  lemma NewDirsCons(files: seq<FileEntry>, ds: seq<Dir>)
    requires AllSound(ds) && ds != [] && NoneTwice(files + AllEntries(ds))
    ensures Sound(ds[0]) && NewFiles(files, ds[0].name, ds[0].files)
    ensures NoneTwice(files + Entries(ds[0].name, ds[0].files) + AllEntries(ds[1..]))
  {
    AllEntriesCons(ds);
    hide AllEntries, NormSum;
    var es := Entries(ds[0].name, ds[0].files);
    Regroup(files, es, AllEntries(ds[1..]));
    var all := files + es + AllEntries(ds[1..]);
    forall k | 0 <= k < |es|
      ensures all[|files| + k] == Entry(ds[0].name, ds[0].files[k])
    {
    }
    forall k, i | 0 <= k < |es| && 0 <= i < |files|
      ensures files[i].dir != ds[0].name || files[i].name != ds[0].files[k].name
    {
      assert all[i] == files[i] && all[|files| + k] == Entry(ds[0].name, ds[0].files[k]);
    }
    forall j, k | 0 <= j < k < |es|
      ensures ds[0].files[j].name != ds[0].files[k].name
    {
      assert all[|files| + j] == Entry(ds[0].name, ds[0].files[j]) && all[|files| + k] == Entry(ds[0].name, ds[0].files[k]);
    }
  }

  function WithDirs(r: Reader, ds: seq<Dir>, file: Option<nat>): Reader
    requires r.current.Some? && AllSound(ds)
  {
    var p := r.current.value;
    r.(current := Some(p.(dirs := p.dirs + DraftDirs(ds, |r.files|))), inDir := r.inDir || ds != [],
       files := r.files + AllEntries(ds), file := file)
  }

  lemma WithOneMore(r: Reader, ds: seq<Dir>, file1: Option<nat>, file: Option<nat>)
    requires r.current.Some? && AllSound(ds) && ds != [] && r.installed
    ensures
      var r1 := WithDir(r, ds[0], file1);
      && r1.installed && r1.current.Some? && r1.current.value.name == r.current.value.name
      && r1.files == r.files + Entries(ds[0].name, ds[0].files)
      && WithDirs(r1, ds[1..], file) == WithDirs(r, ds, file)
  {
    hide Entries, DraftDirOf;
    assert Sound(ds[0]);
    hide Sound, AllSound, DraftDirs, AllEntries;
    var d, es := DraftDirOf(ds[0], |r.files|), Entries(ds[0].name, ds[0].files);
    AllEntriesCons(ds);
    DraftDirsCons(ds, |r.files|);
    Regroup(r.current.value.dirs, [d], DraftDirs(ds[1..], |r.files| + |es|));
    Regroup(r.files, es, AllEntries(ds[1..]));
  }

  lemma Regroup<T>(a: seq<T>, b: seq<T>, c: seq<T>)
    ensures a + b + c == a + (b + c)
  {
  }

  lemma AllEntriesCons(ds: seq<Dir>)
    requires AllSound(ds) && ds != []
    ensures Sound(ds[0]) && AllSound(ds[1..])
    ensures AllEntries(ds) == Entries(ds[0].name, ds[0].files) + AllEntries(ds[1..])
  {
  }

  lemma DraftDirsCons(ds: seq<Dir>, first: nat)
    requires ds != []
    ensures DraftDirs(ds, first) == [DraftDirOf(ds[0], first)] + DraftDirs(ds[1..], first + |ds[0].files|)
  {
  }

  lemma WithNone(r: Reader)
    requires r.current.Some?
    ensures WithDirs(r, [], r.file) == r
  {
    assert r.current.value.dirs + [] == r.current.value.dirs && r.files + [] == r.files;
  }

  lemma {:induction false} DirsRead(
    r: Reader, ds: seq<Dir>, beyond: Beyond, lines: seq<string>, force: bool) returns (file: Option<nat>)
    requires r.Ok() && r.installed && r.current.Some? && r.current.value.name.Some?
    requires AllSound(ds) && LegalDirs(ds) && NoneTwice(r.files + AllEntries(ds))
    ensures WithDirs(r, ds, file).Ok()
    ensures ReadLines(r, DirsLines(ds, beyond) + lines, force) == ReadLines(WithDirs(r, ds, file), lines, force)
    decreases ds
  {
    hide ReadLines, FilesLines, DirHeader, Entries, DraftDirOf, NewFiles, LegalDir, WithDir, WithDirs, NoneTwice;
    if ds == [] {
      assert DirsLines(ds, beyond) + lines == lines;
      WithNone(r);
      return r.file;
    }
    assert Sound(ds[0]) && LegalDir(ds[0]);
    var more := DirsLines(ds[1..], beyond) + lines;
    assert DirsLines(ds, beyond) + lines == DirHeader(ds[0]) + FilesLines(ds[0].files, beyond) + more;
    NewDirsCons(r.files, ds);
    var file1 := DirRead(r, ds[0], beyond, more, force);
    WithOneMore(r, ds, file1, None);
    file := DirsRead(WithDir(r, ds[0], file1), ds[1..], beyond, lines, force);
    WithOneMore(r, ds, file1, file);
  }

  function DraftPackage(p: Package, first: nat): Draft
    requires Writable(p)
  {
    DraftOf(p.info).(dirs := DraftDirs(p.dirs, first))
  }

  /** The reader after a package and the empty line behind it. */
  function WithPackage(r: Reader, p: Package, file: Option<nat>): Reader
    requires Writable(p)
  {
    r.(done := r.done + [DraftPackage(p, |r.files|)], current := None, installed := false, listed := false,
       inDir := false, files := r.files + AllEntries(p.dirs), file := file)
  }

  lemma PackageRead(r: Reader, p: Package, beyond: Beyond, lines: seq<string>, force: bool) returns (file: Option<nat>)
    requires r.Ok() && r.current.None? && r.mode.InstalledMode? && Writable(p) && LegalPackage(p) && NoneTwice(r.files + AllEntries(p.dirs))
    ensures WithPackage(r, p, file).Ok()
    ensures ReadLines(r, InfoLines(p.info, beyond) + DirsLines(p.dirs, beyond) + [""] + lines, force) ==
            ReadLines(WithPackage(r, p, file), lines, force)
  {
    hide ReadLines, InfoLines, DirsLines, LegalInfo, DraftDirs, AllEntries, NormSum;
    var more := DirsLines(p.dirs, beyond) + ([""] + lines);
    assert InfoLines(p.info, beyond) + DirsLines(p.dirs, beyond) + [""] + lines == InfoLines(p.info, beyond) + more;
    InfoRead(r, p.info, beyond, more, force);
    var r1 := r.(current := Some(DraftOf(p.info)), installed := true, listed := true);
    file := DirsRead(r1, p.dirs, beyond, [""] + lines, force);
    var r2 := WithDirs(r1, p.dirs, file);
    assert r2.current.value == DraftPackage(p, |r.files|) by {
      assert [] + DraftDirs(p.dirs, |r.files|) == DraftDirs(p.dirs, |r.files|);
    }
    assert ReadLine(r2, "", force) == Some(WithPackage(r, p, file));
    ReadCons(r2, "", lines, force);
  }

  function TableOf(ps: seq<Package>): seq<FileEntry>
    requires AllWritable(ps)
    decreases ps
  {
    if ps == [] then [] else assert Writable(ps[0]); AllEntries(ps[0].dirs) + TableOf(ps[1..])
  }

  function Drafts(ps: seq<Package>, first: nat): (ds: seq<Draft>)
    requires AllWritable(ps)
    ensures |ds| == |ps|
    decreases ps
  {
    if ps == [] then []
    else
      assert Writable(ps[0]);
      [DraftPackage(ps[0], first)] + Drafts(ps[1..], first + |AllEntries(ps[0].dirs)|)
  }

  /** Every path has one owner. */
  predicate SinglyOwned(ps: seq<Package>)
    requires AllWritable(ps)
  {
    NoneTwice(TableOf(ps))
  }

  lemma PrefixNoneTwice(a: seq<FileEntry>, b: seq<FileEntry>, c: seq<FileEntry>)
    requires NoneTwice(a + (b + c))
    ensures NoneTwice(a + b) && NoneTwice(a + b + c)
  {
    Regroup(a, b, c);
    var all := a + b + c;
    assert forall k | 0 <= k < |a + b| :: (a + b)[k] == all[k];
  }

  lemma {:induction false} PackagesRead(r: Reader, ps: seq<Package>, beyond: Beyond, force: bool)
    requires r.Ok() && r.current.None? && r.mode.InstalledMode? && AllWritable(ps) && LegalPackages(ps)
    requires NoneTwice(r.files + TableOf(ps))
    ensures
      var r' := ReadLines(r, PackagesLines(ps, beyond), force);
      && r'.Some? && r'.value.current.None?
      && r'.value.done == r.done + Drafts(ps, |r.files|) && r'.value.files == r.files + TableOf(ps)
    decreases ps
  {
    hide ReadLines, InfoLines, DirsLines, LegalPackage, AllEntries, DraftPackage, NoneTwice, WithPackage;
    if ps == [] {
      ReadNone(r, force);
      assert r.done + Drafts(ps, |r.files|) == r.done && r.files + TableOf(ps) == r.files;
    } else {
      assert Writable(ps[0]) && LegalPackage(ps[0]);
      PrefixNoneTwice(r.files, AllEntries(ps[0].dirs), TableOf(ps[1..]));
      var file := PackageRead(r, ps[0], beyond, PackagesLines(ps[1..], beyond), force);
      WithPackageIs(r, ps[0], file);
      var r1 := WithPackage(r, ps[0], file);
      PackagesRead(r1, ps[1..], beyond, force);
      Regroup(r.done, [DraftPackage(ps[0], |r.files|)], Drafts(ps[1..], |r1.files|));
      Regroup(r.files, AllEntries(ps[0].dirs), TableOf(ps[1..]));
    }
  }

  lemma ReadNone(r: Reader, force: bool)
    requires r.Ok()
    ensures ReadLines(r, [], force) == Some(r)
  {
  }

  lemma WithPackageIs(r: Reader, p: Package, file: Option<nat>)
    requires Writable(p)
    ensures
      var r1 := WithPackage(r, p, file);
      && r1.current.None? && r1.mode == r.mode && r1.done == r.done + [DraftPackage(p, |r.files|)] && r1.files == r.files + AllEntries(p.dirs)
  {
  }

  // ----- What the tables stand for -----

  lemma ViewDirOf(d: Dir, first: nat, files: seq<FileEntry>)
    requires Sound(d) && first + |d.files| <= |files|
    requires files[first..first + |d.files|] == Entries(d.name, d.files)
    ensures Refers(DraftDirOf(d, first), files) && ViewDir(DraftDirOf(d, first), files) == NormDir(d)
  {
  }

  lemma {:induction false} ViewDirsOf(ds: seq<Dir>, first: nat, files: seq<FileEntry>)
    requires AllSound(ds) && first + |AllEntries(ds)| <= |files|
    requires files[first..first + |AllEntries(ds)|] == AllEntries(ds)
    ensures |DraftDirs(ds, first)| == |ds|
    ensures forall k | 0 <= k < |ds| ::
              Refers(DraftDirs(ds, first)[k], files) && ViewDir(DraftDirs(ds, first)[k], files) == NormDir(ds[k])
    decreases ds
  {
    hide NormDir, DraftDirOf, Refers, ViewDir;
    if ds != [] {
      assert Sound(ds[0]);
      var here, rest := Entries(ds[0].name, ds[0].files), AllEntries(ds[1..]);
      assert AllEntries(ds) == here + rest;
      SliceParts(files, first, here, rest);
      ViewDirOf(ds[0], first, files);
      ViewDirsOf(ds[1..], first + |here|, files);
    }
  }

  lemma SliceParts<T>(s: seq<T>, first: nat, a: seq<T>, b: seq<T>)
    requires first + |a + b| <= |s| && s[first..first + |a + b|] == a + b
    ensures s[first..first + |a|] == a && s[first + |a|..first + |a| + |b|] == b
  {
    var all := s[first..first + |a + b|];
    assert s[first..first + |a|] == all[..|a|];
    assert s[first + |a|..first + |a| + |b|] == all[|a|..];
  }

  lemma ViewPackageOf(p: Package, first: nat, files: seq<FileEntry>)
    requires Writable(p) && first + |AllEntries(p.dirs)| <= |files|
    requires files[first..first + |AllEntries(p.dirs)|] == AllEntries(p.dirs)
    ensures RefersAll(DraftPackage(p, first), files) && View(DraftPackage(p, first), files) == Norm(p)
  {
    hide NormDir, Refers, ViewDir, NormSum;
    ViewDirsOf(p.dirs, first, files);
  }

  lemma PackagesCons(ps: seq<Package>, first: nat)
    requires AllWritable(ps) && ps != []
    ensures Writable(ps[0]) && AllWritable(ps[1..])
    ensures TableOf(ps) == AllEntries(ps[0].dirs) + TableOf(ps[1..])
    ensures Drafts(ps, first) == [DraftPackage(ps[0], first)] + Drafts(ps[1..], first + |AllEntries(ps[0].dirs)|)
  {
    hide AllEntries, DraftPackage;
  }

  lemma {:induction false} ViewPackagesOf(ps: seq<Package>, first: nat, files: seq<FileEntry>, k: nat)
    requires AllWritable(ps) && first + |TableOf(ps)| <= |files| && k < |ps|
    requires files[first..first + |TableOf(ps)|] == TableOf(ps)
    ensures RefersAll(Drafts(ps, first)[k], files) && View(Drafts(ps, first)[k], files) == Norm(ps[k])
    decreases ps
  {
    hide Norm, View, RefersAll, DraftPackage, AllEntries, AllWritable, TableOf, Drafts;
    PackagesCons(ps, first);
    var here, rest := AllEntries(ps[0].dirs), TableOf(ps[1..]);
    SliceParts(files, first, here, rest);
    if k == 0 {
      ViewPackageOf(ps[0], first, files);
    } else {
      ViewPackagesOf(ps[1..], first + |here|, files, k - 1);
    }
  }

  // ----- Every field fits on its line -----

  predicate OneLines(lines: seq<string>) { forall k | 0 <= k < |lines| :: OneLine(lines[k]) }

  lemma {:induction false} DigitsOneLine(v: nat, radix: Radix)
    ensures OneLine(Digits(v, radix))
  {
    if v != 0 { DigitsOneLine(Over(v, radix), radix); }
  }

  lemma {:induction false} HexOneLine(bytes: seq<Byte>)
    ensures OneLine(HexText(bytes))
  {
    if bytes != [] { HexOneLine(bytes[1..]); }
  }

  lemma {:induction false} Base64OneLine(bin: seq<Byte>, beyond: seq<Byte>)
    requires |beyond| >= 2
    ensures OneLine(Base64Text(bin, beyond))
  {
    hide Decode6;
    if |bin| > 2 { Base64OneLine(bin[3..], beyond); }
  }

  lemma CsumOneLine(c: Checksum, beyond: Beyond)
    requires Summed(c)
    ensures OneLine(CsumText(c, beyond).value)
  {
    hide HexText, Base64Text;
    HexOneLine(c.Digest());
    Base64OneLine(c.Digest(), beyond);
  }

  lemma DepOneLine(d: Dep)
    requires Legal(d)
    ensures OneLine(DepText(d))
  {
    hide IsValid;
    if d.version.Some? { ValidTextIsPlain(d.version.value); }
  }

  lemma {:induction false} DepsOneLine(deps: seq<Dep>)
    requires forall i | 0 <= i < |deps| :: Legal(deps[i])
    ensures OneLine(DepsText(deps))
  {
    hide DepText, Legal;
    if deps != [] {
      DepOneLine(deps[0]);
      DepsOneLine(deps[1..]);
    }
  }

  lemma InfoOneLines(i: Info, beyond: Beyond)
    requires LegalInfo(i)
    ensures OneLines(InfoLines(i, beyond))
  {
    hide CsumText, DepsText, Digits;
    CsumOneLine(i.csum, beyond);
    DigitsOneLine(i.size, 10);
    DigitsOneLine(i.installedSize, 10);
    DepsOneLine(i.deps);
  }

  lemma {:induction false} FilesOneLines(fs: seq<File>, beyond: Beyond)
    requires forall k | 0 <= k < |fs| :: fs[k].csum.Valid() && OneLine(fs[k].name)
    ensures OneLines(FilesLines(fs, beyond))
  {
    hide CsumText;
    if fs != [] {
      if !fs[0].csum.kind.NoSum? { CsumOneLine(fs[0].csum, beyond); }
      FilesOneLines(fs[1..], beyond);
    }
  }

  lemma HeaderOneLines(d: Dir)
    requires LegalDir(d)
    ensures OneLines(DirHeader(d))
  {
    hide Digits;
    DigitsOneLine(d.uid, 10);
    DigitsOneLine(d.gid, 10);
    DigitsOneLine(d.mode, 8);
  }

  lemma {:induction false} DirsOneLines(ds: seq<Dir>, beyond: Beyond)
    requires AllSound(ds) && LegalDirs(ds)
    ensures OneLines(DirsLines(ds, beyond))
    decreases ds
  {
    hide DirHeader, FilesLines, OneLine;
    if ds != [] {
      assert Sound(ds[0]) && LegalDir(ds[0]);
      HeaderOneLines(ds[0]);
      FilesOneLines(ds[0].files, beyond);
      DirsOneLines(ds[1..], beyond);
    }
  }

  lemma {:induction false} PackagesOneLines(ps: seq<Package>, beyond: Beyond)
    requires AllWritable(ps) && LegalPackages(ps)
    ensures OneLines(PackagesLines(ps, beyond))
    decreases ps
  {
    hide InfoLines, DirsLines, LegalInfo;
    if ps != [] {
      assert Writable(ps[0]) && LegalPackage(ps[0]);
      InfoOneLines(ps[0].info, beyond);
      DirsOneLines(ps[0].dirs, beyond);
      PackagesOneLines(ps[1..], beyond);
    }
  }

  // ----- The round trip -----

  /** The lines of the written text, as a line reader delivers them. */
  lemma LinesOfText(ps: seq<Package>, beyond: Beyond)
    requires AllWritable(ps) && LegalPackages(ps)
    ensures Segments(DbText(ps, beyond), '\n') == PackagesLines(ps, beyond)
  {
    hide Segments, PackagesLines;
    var lines := PackagesLines(ps, beyond);
    PackagesOneLines(ps, beyond);
    SegmentsOfJoined(lines, '\n', "");
    SegmentsOfNone('\n');
    assert Joined(lines, '\n') + "" == Joined(lines, '\n') && lines + [] == lines;
  }

  /** The reader has rebuilt the packages, in order. */
  predicate Rebuilt(r: Option<Reader>, ps: seq<Package>)
    requires AllWritable(ps)
  {
    && r.Some? && |r.value.done| == |ps|
    && forall k | 0 <= k < |ps| ::
         && RefersAll(r.value.done[k], r.value.files)
         && View(r.value.done[k], r.value.files) == Norm(ps[k])
  }

  lemma ReadsBack(ps: seq<Package>, beyond: Beyond, force: bool)
    requires AllWritable(ps) && LegalPackages(ps) && SinglyOwned(ps)
    ensures
      var r := ReadLines(START, PackagesLines(ps, beyond), force);
      Rebuilt(r, ps) && r.value.current.None?
  {
    hide ReadLines, Norm, View, RefersAll, PackagesLines;
    assert [] + TableOf(ps) == TableOf(ps);
    PackagesRead(START, ps, beyond, force);
    var files := [] + TableOf(ps);
    assert files[0..|TableOf(ps)|] == TableOf(ps) && [] + Drafts(ps, 0) == Drafts(ps, 0);
    forall k | 0 <= k < |ps|
      ensures RefersAll(Drafts(ps, 0)[k], files) && View(Drafts(ps, 0)[k], files) == Norm(ps[k])
    {
      ViewPackagesOf(ps, 0, files, k);
    }
  }

  lemma {:induction false} ReadOneMore(r: Reader, lines: seq<string>, line: string, force: bool)
    requires r.Ok()
    ensures ReadLines(r, lines + [line], force) ==
            match ReadLines(r, lines, force) case None => None case Some(r1) => ReadLine(r1, line, force)
    decreases lines
  {
    hide ReadLine;
    if lines == [] {
      assert lines + [line] == [line];
    } else if ReadLine(r, lines[0], force).Some? {
      assert (lines + [line])[1..] == lines[1..] + [line];
      ReadOneMore(ReadLine(r, lines[0], force).value, lines[1..], line, force);
    }
  }

  /** Reading the written text gives the same packages in the same order, with the same metadata,
      dependencies, directories, files and checksums, whichever stream delivers its lines: a mapped
      file ends with one more, empty, line. */
  lemma DatabaseRoundTrip(ps: seq<Package>, beyond: Beyond, force: bool)
    requires AllWritable(ps) && LegalPackages(ps) && SinglyOwned(ps)
    ensures
      var lines := Segments(DbText(ps, beyond), '\n');
      Rebuilt(ReadLines(START, lines, force), ps) && Rebuilt(ReadLines(START, lines + [""], force), ps)
  {
    hide ReadLines, Rebuilt, DbText, Segments, PackagesLines;
    LinesOfText(ps, beyond);
    ReadsBack(ps, beyond, force);
    ReadOneMore(START, PackagesLines(ps, beyond), "", force);
  }

  // ----- Indexes -----

  predicate LegalInfos(infos: seq<Info>) { forall k | 0 <= k < |infos| :: LegalInfo(infos[k]) }

  /** An index is its entries, each ended by an empty line. */
  function IndexLines(infos: seq<Info>, beyond: Beyond): seq<string>
    requires LegalInfos(infos)
  {
    if infos == [] then [] else InfoLines(infos[0], beyond) + [""] + IndexLines(infos[1..], beyond)
  }

  function IndexDrafts(infos: seq<Info>, mode: Mode): (ds: seq<Draft>)
    requires LegalInfos(infos)
    ensures |ds| == |infos|
    ensures forall k | 0 <= k < |infos| :: LegalInfo(infos[k]) && ds[k] == Offered(DraftOf(infos[k]), mode)
  {
    seq(|infos|, k requires 0 <= k < |infos| && LegalInfo(infos[k]) => Offered(DraftOf(infos[k]), mode))
  }

  lemma IndexDraftsCons(infos: seq<Info>, mode: Mode) returns (e: Draft)
    requires infos != [] && LegalInfos(infos)
    ensures LegalInfo(infos[0]) && e == Offered(DraftOf(infos[0]), mode) && e.csum.Valid()
    ensures LegalInfos(infos[1..]) && IndexDrafts(infos, mode) == [e] + IndexDrafts(infos[1..], mode)
  {
    hide NormSum;
    e := Offered(DraftOf(infos[0]), mode);
  }

  lemma IndexEntryRead(r: Reader, i: Info, beyond: Beyond, lines: seq<string>, force: bool)
    requires r.Ok() && r.current.None? && !r.mode.InstalledMode? && LegalInfo(i)
    ensures ReadLines(r, InfoLines(i, beyond) + [""] + lines, force) ==
            ReadLines(r.(done := r.done + [Offered(DraftOf(i), r.mode)]), lines, force)
  {
    hide ReadLines, InfoLines, NormSum, AddInfo, AddFdb;
    Regroup(InfoLines(i, beyond), [""], lines);
    InfoRead(r, i, beyond, [""] + lines, force);
    var r1 := r.(current := Some(DraftOf(i)), installed := false, listed := false);
    assert ReadLine(r1, "", force) == Some(r.(done := r.done + [Offered(DraftOf(i), r.mode)]));
    ReadCons(r1, "", lines, force);
  }

  /** Reading an index that was written gives its packages, in order, each offered by the repository. */
  lemma {:induction false} IndexRoundTrip(r: Reader, infos: seq<Info>, beyond: Beyond, force: bool)
    requires r.Ok() && r.current.None? && !r.mode.InstalledMode? && LegalInfos(infos)
    ensures ReadLines(r, IndexLines(infos, beyond), force) == Some(r.(done := r.done + IndexDrafts(infos, r.mode)))
    decreases infos
  {
    hide ReadLines, InfoLines, DraftOf, Offered, LegalInfo;
    if infos == [] {
      ReadNone(r, force);
      assert r.done + IndexDrafts(infos, r.mode) == r.done;
    } else {
      var e := IndexDraftsCons(infos, r.mode);
      IndexEntryRead(r, infos[0], beyond, IndexLines(infos[1..], beyond), force);
      IndexRoundTrip(r.(done := r.done + [e]), infos[1..], beyond, force);
      Regroup(r.done, [e], IndexDrafts(infos[1..], r.mode));
    }
  }
}
