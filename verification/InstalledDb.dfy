/** The installed-package database as text: apk_db_write_fdb with apk_pkg_write_index_entry, and
    apk_db_index_read with apk_pkg_add_info reading it back. */
module InstalledDb {
  import opened Wrappers
  import opened Codec
  import opened Dependencies
  import opened Splitting

  // ----- What is stored -----

  datatype File = File(name: string, csum: Checksum)

  datatype Dir = Dir(name: string, uid: nat, gid: nat, mode: nat, files: seq<File>)

  /** The index fields of a package; None is a NULL string. */
  datatype Info = Info(
    csum: Checksum, name: string, version: Option<string>, arch: Option<string>, size: nat,
    installedSize: nat, description: Option<string>, url: Option<string>, license: Option<string>,
    deps: seq<Dep>)

  datatype Package = Package(info: Info, dirs: seq<Dir>)

  // ----- Writing -----

  /** Whatever the base64 encoder finds behind a SHA1 digest. */
  type Beyond = b: seq<Byte> | |b| == 2 witness [0, 0]

  function Text(s: Option<string>): string { if s.Some? then s.value else "" }

  predicate Summed(c: Checksum) { c.Valid() && !c.kind.NoSum? }

  function Line(field: char, value: string): string { [field, ':'] + value }

  function InfoLines(i: Info, beyond: Beyond): seq<string>
    requires Summed(i.csum)
  {
    [Line('C', CsumText(i.csum, beyond).value), Line('P', i.name), Line('V', Text(i.version))]
    + (if i.arch.Some? then [Line('A', i.arch.value)] else [])
    + [Line('S', UintText(i.size, 10)), Line('I', UintText(i.installedSize, 10)), Line('T', Text(i.description)),
       Line('U', Text(i.url)), Line('L', Text(i.license))]
    + (if i.deps != [] then [Line('D', DepsText(i.deps))] else [])
  }

  function FileLines(f: File, beyond: Beyond): seq<string>
    requires f.csum.Valid()
  {
    [Line('R', f.name)] + if f.csum.kind.NoSum? then [] else [Line('Z', CsumText(f.csum, beyond).value)]
  }

  function FilesLines(fs: seq<File>, beyond: Beyond): seq<string>
    requires forall i | 0 <= i < |fs| :: fs[i].csum.Valid()
  {
    if fs == [] then [] else FileLines(fs[0], beyond) + FilesLines(fs[1..], beyond)
  }

  function OwnerText(d: Dir): string { UintText(d.uid, 10) + ":" + UintText(d.gid, 10) + ":" + UintText(d.mode, 8) }

  function DirHeader(d: Dir): seq<string> {
    [Line('F', d.name), Line('M', OwnerText(d))]
  }

  predicate Sound(d: Dir) { forall i | 0 <= i < |d.files| :: d.files[i].csum.Valid() }

  predicate AllSound(ds: seq<Dir>) { forall i | 0 <= i < |ds| :: Sound(ds[i]) }

  function DirsLines(ds: seq<Dir>, beyond: Beyond): seq<string>
    requires AllSound(ds)
  {
    if ds == [] then []
    else assert Sound(ds[0]); DirHeader(ds[0]) + FilesLines(ds[0].files, beyond) + DirsLines(ds[1..], beyond)
  }

  predicate Writable(p: Package) {
    Summed(p.info.csum) && AllSound(p.dirs)
  }

  predicate AllWritable(ps: seq<Package>) { forall i | 0 <= i < |ps| :: Writable(ps[i]) }

  function PackagesLines(ps: seq<Package>, beyond: Beyond): seq<string>
    requires AllWritable(ps)
  {
    if ps == [] then []
    else assert Writable(ps[0]); InfoLines(ps[0].info, beyond) + DirsLines(ps[0].dirs, beyond) + [""] + PackagesLines(ps[1..], beyond)
  }

  /** The whole file: every line is ended by a newline. */
  function DbText(ps: seq<Package>, beyond: Beyond): string
    requires AllWritable(ps)
  {
    Joined(PackagesLines(ps, beyond), '\n')
  }

  // ----- Reading -----

  /** A package under construction: its strings are NULL until their lines have been seen. */
  datatype Draft = Draft(
    csum: Checksum, name: Option<string>, version: Option<string>, arch: Option<string>, size: nat,
    installedSize: nat, description: Option<string>, url: Option<string>, license: Option<string>,
    deps: seq<Dep>, dirs: seq<DraftDir>, installable: bool, repos: set<nat>)

  /** Files are shared objects: a directory holds their numbers. */
  datatype DraftDir = DraftDir(name: string, uid: nat, gid: nat, mode: nat, files: seq<nat>)

  datatype FileEntry = FileEntry(dir: string, name: string, csum: Checksum)

  function NewDraft(): Draft {
    Draft(NoChecksum(), None, None, None, 0, 0, None, None, None, [], [], true, {})
  }

  /** What is read: the installed database, the index of a repository, or some other index. */
  datatype Mode = InstalledMode | Repository(number: nat) | OtherIndex

  /** `done`: the complete packages, of the installed list or of the index.  `current`: the package whose lines are
      being read, `installed` from its size line on, and `listed` if it had a name by then.
      `inDir`: its last directory takes the files.  `file`: the file that a checksum is for. */
  datatype Reader = Reader(
    done: seq<Draft>, current: Option<Draft>, installed: bool, listed: bool, inDir: bool, file: Option<nat>,
    files: seq<FileEntry>, mode: Mode)
  {
    ghost predicate Ok() {
      && (!mode.InstalledMode? ==> !installed)
      && (inDir ==> current.Some? && current.value.dirs != [])
      && (current.None? ==> !installed && !listed && !inDir)
      && (file.Some? ==> file.value < |files|)
      && (forall i | 0 <= i < |files| :: files[i].csum.Valid())
      && (current.Some? ==> current.value.csum.Valid())
    }
  }

  function Begin(mode: Mode): Reader { Reader([], None, false, false, false, None, [], mode) }

  const START := Begin(InstalledMode)

  /** A checksum field; a hex digest that is cut short makes the source read on past the line. */
  function PullField(v: string, c: Checksum): (r: (Blob, Checksum))
    requires c.Valid()
    ensures r.1.Valid()
  {
    if CsumReadable(Some(v)) then PullCsum(Some(v), c) else (None, c)
  }

  /** The fields of the installed database, which are not part of an index. */
  const FDB_FIELDS := ['F', 'M', 'R', 'Z']

  /** A field of the index; the checksum is the only one that can be malformed.  A package with an
      unknown field cannot be installed, unless the field is a lower case letter. */
  function AddInfo(p: Draft, f: char, v: string): (r: (Draft, bool))
    requires p.csum.Valid()
    ensures r.0.csum.Valid() && r.0.dirs == p.dirs
  {
    match f
    case 'P' => (p.(name := Some(v)), true)
    case 'V' => (p.(version := Some(v)), true)
    case 'T' => (p.(description := Some(v)), true)
    case 'U' => (p.(url := Some(v)), true)
    case 'L' => (p.(license := Some(v)), true)
    case 'A' => (p.(arch := Some(v)), true)
    case 'D' => (p.(deps := p.deps + ParseDeps(v)), true)
    case 'C' => var (b, c) := PullField(v, p.csum); (p.(csum := c), b.Some?)
    case 'S' => (p.(size := PullUint(v, 10).0), true)
    case 'I' => (p.(installedSize := PullUint(v, 10).0), true)
    case _ => (if f in FDB_FIELDS || 'a' <= f <= 'z' then p else p.(installable := false), false)
  }

  /** A trailing slash is not part of a directory's name. */
  function DirName(v: string): string {
    if v != "" && v[|v| - 1] == '/' then v[..|v| - 1] else v
  }

  function PullColon(b: Blob): Blob {
    if b.None? || b.value == "" || b.value[0] != ':' then None else Some(b.value[1..])
  }

  function PullNumber(b: Blob, radix: Radix): (nat, Blob) {
    if b.None? then (0, None) else var (v, rest) := PullUint(b.value, radix); (v, Some(rest))
  }

  /** uid:gid:mode, the last in octal. */
  function PullOwner(v: string): (nat, nat, nat, Blob) {
    var (uid, b1) := PullNumber(Some(v), 10);
    var (gid, b2) := PullNumber(PullColon(b1), 10);
    var (mode, b3) := PullNumber(PullColon(b2), 8);
    (uid, gid, mode, b3)
  }

  function FindFile(files: seq<FileEntry>, dir: string, name: string): (r: Option<nat>)
    ensures r.Some? ==> r.value < |files| && files[r.value].dir == dir && files[r.value].name == name
    ensures r.None? ==> forall i | 0 <= i < |files| :: files[i].dir != dir || files[i].name != name
  {
    if files == [] then None
    else
      var k := |files| - 1;
      if files[k].dir == dir && files[k].name == name then Some(k) else FindFile(files[..k], dir, name)
  }

  function SetLastDir(p: Draft, d: DraftDir): Draft
    requires p.dirs != []
  {
    p.(dirs := p.dirs[..|p.dirs| - 1] + [d])
  }

  /** Directory and file lines; None is a fatal error. */
  function AddFdb(r: Reader, f: char, v: string, force: bool): (r': Option<Reader>)
    requires r.Ok() && r.current.Some?
    ensures r'.Some? ==> r'.value.Ok()
  {
    var p := r.current.value;
    match f
    case 'F' =>
      if p.name.None? then None
      else Some(r.(current := Some(p.(dirs := p.dirs + [DraftDir(DirName(v), 0, 0, 0, [])])), inDir := true))
    case 'M' =>
      var (uid, gid, mode, b) := PullOwner(v);
      if !r.inDir || b.None? then None
      else
        var d := p.dirs[|p.dirs| - 1];
        Some(r.(current := Some(SetLastDir(p, d.(uid := uid, gid := gid, mode := mode)))))
    case 'R' =>
      if !r.inDir then None
      else
        var d := p.dirs[|p.dirs| - 1];
        var known := FindFile(r.files, d.name, v);
        if known.Some? then Some(r.(file := known))
        else
          Some(r.(current := Some(SetLastDir(p, d.(files := d.files + [|r.files|]))),
                  file := Some(|r.files|), files := r.files + [FileEntry(d.name, v, NoChecksum())]))
    case 'Z' =>
      if r.file.None? then None
      else
        var e := r.files[r.file.value];
        var (b, c) := PullField(v, e.csum);
        if b.None? then None else Some(r.(files := r.files[r.file.value := e.(csum := c)]))
    case _ => if force then Some(r.(current := Some(p.(installable := true)))) else None
  }

  /** A package of a repository remembers where it is offered. */
  function Offered(p: Draft, mode: Mode): Draft {
    if mode.Repository? then p.(repos := p.repos + {mode.number}) else p
  }

  function ReadLine(r: Reader, line: string, force: bool): (r': Option<Reader>)
    requires r.Ok()
    ensures r'.Some? ==> r'.value.Ok()
  {
    if |line| < 2 || line[1] != ':' then
      if r.current.None? then Some(r)
      else Some(r.(done := if r.listed || !r.mode.InstalledMode? then r.done + [Offered(r.current.value, r.mode)] else r.done,
                   current := None, installed := false, listed := false, inDir := false))
    else
      var f, v := line[0], line[2..];
      var r0 := if r.current.Some? then r else r.(current := Some(NewDraft()));
      var (p, ok) := AddInfo(r0.current.value, f, v);
      var r1 := r0.(current := Some(p));
      if ok && f == 'S' && !r1.installed && r.mode.InstalledMode? then Some(r1.(installed := true, listed := p.name.Some?))
      else if ok then Some(r1)
      else if !r1.installed then Some(r1)
      else AddFdb(r1, f, v, force)
  }

  function ReadLines(r: Reader, lines: seq<string>, force: bool): (r': Option<Reader>)
    requires r.Ok()
    ensures r'.Some? ==> r'.value.Ok()
    decreases lines
  {
    if lines == [] then Some(r)
    else match ReadLine(r, lines[0], force)
      case None => None
      case Some(r1) => ReadLines(r1, lines[1..], force)
  }

  // ----- What a reader holds -----

  predicate Refers(d: DraftDir, files: seq<FileEntry>) {
    forall i | 0 <= i < |d.files| :: d.files[i] < |files|
  }

  function ViewFiles(ids: seq<nat>, files: seq<FileEntry>): seq<File>
    requires forall i | 0 <= i < |ids| :: ids[i] < |files|
  {
    seq(|ids|, i requires 0 <= i < |ids| => File(files[ids[i]].name, files[ids[i]].csum))
  }

  function ViewDir(d: DraftDir, files: seq<FileEntry>): Dir
    requires Refers(d, files)
  {
    Dir(d.name, d.uid, d.gid, d.mode, ViewFiles(d.files, files))
  }

  predicate RefersAll(p: Draft, files: seq<FileEntry>) {
    p.name.Some? && p.installable && forall i | 0 <= i < |p.dirs| :: Refers(p.dirs[i], files)
  }

  function ViewInfo(p: Draft): Info
    requires p.name.Some?
  {
    Info(p.csum, p.name.value, p.version, p.arch, p.size, p.installedSize, p.description, p.url, p.license, p.deps)
  }

  function View(p: Draft, files: seq<FileEntry>): Package
    requires RefersAll(p, files)
  {
    Package(ViewInfo(p), seq(|p.dirs|, i requires 0 <= i < |p.dirs| => ViewDir(p.dirs[i], files)))
  }
}
