/** Who owns which file: the file index, the packages' own lists, and what an upgrade does to
    both and to the disk (apk_db_migrate_files and apk_db_purge_pkg of apk-tools/src/database.c). */
module Ownership {
  import opened Wrappers
  import opened Codec

  datatype Path = Path(dir: string, name: string)
  type Content = seq<Byte>
  datatype Sum = Sum(kind: SumKind, digest: seq<Byte>)

  /** An installed package; its directories are in a State.  `overlay`: the one without a name, which
      stands for the overlay's files. */
  class Package {
    const name: string
    const overlay: bool

    constructor (name: string, overlay: bool)
      ensures this.name == name && this.overlay == overlay
    {
      this.name, this.overlay := name, overlay;
    }
  }

  /** A directory as one package has it; `guarded` when it lies in a protected path. */
  class Instance {
    const pkg: Package
    const dir: string
    const guarded: bool

    constructor (pkg: Package, dir: string, guarded: bool)
      ensures this.pkg == pkg && this.dir == dir && this.guarded == guarded
    {
      this.pkg, this.dir, this.guarded := pkg, dir, guarded;
    }
  }

  class File {
    const diri: Instance
    const name: string
    const sum: Sum

    function Where(): Path { Path(diri.dir, name) }

    constructor (diri: Instance, name: string, sum: Sum)
      ensures this.diri == diri && this.name == name && this.sum == sum
    {
      this.diri, this.name, this.sum := diri, name, sum;
    }
  }

  /** `index` is the file hash, `lists` and `dirs` are the lists of files and directories, `count`
      is the statistics' number of files; `staged` holds what is on disk as NAME.apk-new. */
  datatype State = State(
    index: map<Path, File>, lists: map<Instance, seq<File>>, dirs: map<Package, seq<Instance>>, count: int,
    disk: map<Path, Content>, staged: map<Path, Content>)

  /** The command line flags, and the digest functions. */
  datatype Settings = Settings(cleanProtected: bool, purge: bool, digest: (SumKind, Content) -> seq<Byte>)

  /** Every directory is in the list of its own package. */
  predicate Rooted(dirs: map<Package, seq<Instance>>, all: set<Instance>) {
    && (forall p | p in dirs :: NoTwice(dirs[p]))
    && (forall p, d | p in dirs && d in dirs[p] :: d in all && d.pkg == p)
    && (forall d | d in all :: d.pkg in dirs && d in dirs[d.pkg])
  }

  /** Every file is in the list of its own directory. */
  predicate Homed(d: Instance, fs: seq<File>) { NoTwice(fs) && forall f | f in fs :: f.diri == d }

  predicate Shaped(s: State) {
    Rooted(s.dirs, s.lists.Keys) && forall d | d in s.lists :: Homed(d, s.lists[d])
  }

  predicate Listed(lists: map<Instance, seq<File>>, f: File) { f.diri in lists && f in lists[f.diri] }

  predicate Indexed(index: map<Path, File>, f: File) { f.Where() in index && index[f.Where()] == f }

  /** The index and the lists agree one to one, but for the pending files, which are only listed. */
  predicate Linked(index: map<Path, File>, lists: map<Instance, seq<File>>, pending: set<File>) {
    && (forall k | k in index :: index[k].Where() == k && Listed(lists, index[k]))
    && (forall d, f | d in lists && f in lists[d] :: f in pending || Indexed(index, f))
    && (forall f | f in pending :: Listed(lists, f) && !Indexed(index, f))
  }

  predicate Agree(s: State, pending: set<File>) {
    Shaped(s) && Linked(s.index, s.lists, pending) && s.count == |s.index|
  }

  // ----- One file -----

  predicate Matches(sum: Sum, content: Content, o: Settings) {
    !sum.kind.NoSum? && o.digest(sum.kind, content) == sum.digest
  }

  /** The file on disk is in a protected directory and is not what its owner installed. */
  predicate LocallyChanged(s: State, f: File, o: Settings) {
    var k := f.Where();
    f.diri.guarded && k in s.disk && (k in s.index ==> !Matches(s.index[k].sum, s.disk[k], o))
  }

  /** The file on disk is the overlay's. */
  predicate FromOverlay(s: State, k: Path) { k in s.index && s.index[k].diri.pkg.overlay }

  /** The new version replaces the one on disk, or stays beside it, or is dropped. */
  function Settle(s: State, f: File, o: Settings): State {
    var k := f.Where();
    if FromOverlay(s, k) then s.(staged := s.staged - {k})
    else if LocallyChanged(s, f, o) then
      if o.cleanProtected || Matches(f.sum, s.disk[k], o) then s.(staged := s.staged - {k}) else s
    else if k in s.staged then s.(disk := s.disk[k := s.staged[k]], staged := s.staged - {k})
    else s
  }

  function Without(fs: seq<File>, f: File): seq<File> {
    if fs == [] then [] else (if fs[0] == f then [] else [fs[0]]) + Without(fs[1..], f)
  }

  /** The file becomes the owner of its path, and the previous owner leaves its list. */
  function Claim(s: State, f: File): State {
    var k := f.Where();
    if k !in s.index then s.(index := s.index[k := f], count := s.count + 1)
    else
      var g := s.index[k];
      if g == f || g.diri !in s.lists then s
      else s.(index := s.index[k := f], lists := s.lists[g.diri := Without(s.lists[g.diri], g)])
  }

  function MigrateFile(s: State, f: File, o: Settings): State { Claim(Settle(s, f, o), f) }

  function MigrateFiles(s: State, fs: seq<File>, o: Settings): State
    decreases fs
  {
    if fs == [] then s else MigrateFiles(MigrateFile(s, fs[0], o), fs[1..], o)
  }

  /** A removed file stays on disk if it is protected and not what was installed. */
  predicate Unlinks(disk: map<Path, Content>, f: File, o: Settings) {
    !f.diri.guarded || o.purge || (f.Where() in disk && Matches(f.sum, disk[f.Where()], o))
  }

  function PurgeFile(s: State, f: File, o: Settings): State {
    var k := f.Where();
    s.(disk := if Unlinks(s.disk, f, o) then s.disk - {k} else s.disk,
       lists := if f.diri in s.lists then s.lists[f.diri := Without(s.lists[f.diri], f)] else s.lists,
       index := s.index - {k}, count := s.count - 1)
  }

  function PurgeFiles(s: State, fs: seq<File>, o: Settings): State
    decreases fs
  {
    if fs == [] then s else PurgeFiles(PurgeFile(s, fs[0], o), fs[1..], o)
  }

  // ----- Whole packages -----

  /** The files of some directories, in order. */
  function FilesIn(s: State, ds: seq<Instance>): (fs: seq<File>)
    decreases ds
  {
    if ds == [] then [] else (if ds[0] in s.lists then s.lists[ds[0]] else []) + FilesIn(s, ds[1..])
  }

  function FilesOf(s: State, p: Package): seq<File> { if p in s.dirs then FilesIn(s, s.dirs[p]) else [] }

  function PathsOf(fs: seq<File>): set<Path> { set f | f in fs :: f.Where() }

  function Elements<T>(s: seq<T>): set<T> { set x | x in s }

  /** What is left of a list when others take some of its paths. */
  function Unclaimed(fs: seq<File>, paths: set<Path>): seq<File> {
    if fs == [] then [] else (if fs[0].Where() in paths then [] else [fs[0]]) + Unclaimed(fs[1..], paths)
  }

  function MigratePackage(s: State, p: Package, o: Settings): State { MigrateFiles(s, FilesOf(s, p), o) }

  /** A package's files are gone, and with them its directories. */
  function PurgePackage(s: State, p: Package, o: Settings): State { Emptied(PurgeFiles(s, FilesOf(s, p), o), p) }

  function Emptied(s: State, p: Package): State {
    s.(dirs := s.dirs[p := []], lists := map d | d in s.lists && d.pkg != p :: s.lists[d])
  }

  function Uninstall(s: State, p: Package): State { s.(dirs := s.dirs - {p}) }

  /** The files of `pkg` are unpacked: it takes its paths over, and `was` loses the rest of its own. */
  function Upgrade(s: State, was: Package, pkg: Package, o: Settings): State {
    Uninstall(PurgePackage(MigratePackage(s, pkg, o), was, o), was)
  }
}
