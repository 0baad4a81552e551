/** All that an installation leaves: the files on disk, and the new versions NAME.apk-new beside them. */
module OwnershipOutcome {
  import opened Wrappers
  import opened Ownership
  import opened OwnershipKept
  import opened OwnershipTheorems
  import opened OwnershipDisk

  /** A file that a package brings. */
  datatype Arrival = Arrival(where: Path, sum: Sum)

  function Arrivals(fs: seq<File>): set<Arrival> { set f | f in fs :: Arrival(f.Where(), f.sum) }

  function Places(files: set<Arrival>): set<Path> { set a | a in files :: a.where }

  /** What is on disk is the overlay's, or, where that is protected, not what its owner brought. */
  predicate KeptAt(s: State, k: Path, guarded: bool, o: Settings) {
    if k in s.index && s.index[k].diri.pkg.overlay then true
    else
      && guarded && k in s.disk
      && (k in s.index ==>
            var sum := s.index[k].sum; sum.kind.NoSum? || o.digest(sum.kind, s.disk[k]) != sum.digest)
  }

  /** The new version stays beside a local change that is not what the package brings. */
  predicate StaysBeside(s: State, k: Path, guarded: bool, files: set<Arrival>, o: Settings) {
    && !(k in s.index && s.index[k].diri.pkg.overlay) && KeptAt(s, k, guarded, o) && !o.cleanProtected
    && k in s.disk
    && forall a | a in files && a.where == k :: a.sum.kind.NoSum? || o.digest(a.sum.kind, s.disk[k]) != a.sum.digest
  }

  /** The disk after an installation of some files, unpacked as `staged`, in place of what `was` had. */
  ghost predicate OnDisk(
    s: State, t: State, was: Option<Package>, files: set<Arrival>, staged: map<Path, Content>, guarded: string -> bool,
    o: Settings)
  {
    && (forall k | k in Places(files) ::
          if !KeptAt(s, k, guarded(k.dir), o) && k in staged then k in t.disk && t.disk[k] == staged[k]
          else SameAt(t.disk, s.disk, k))
    && (forall f | was.Some? && f in FilesOf(s, was.value) && f.Where() !in Places(files) :: GoneUnlessKept(s, t, f, o))
    && (forall k | k !in Places(files) && (was.Some? ==> k !in PathsOf(FilesOf(s, was.value))) :: SameAt(t.disk, s.disk, k))
    && (forall k | k in Places(files) ::
          if k in staged && StaysBeside(s, k, guarded(k.dir), files, o) then k in t.staged && t.staged[k] == staged[k]
          else k !in t.staged)
    && (forall k | k !in Places(files) :: SameAt(t.staged, staged, k))
  }

  lemma PlacesOf(fs: seq<File>)
    ensures Places(Arrivals(fs)) == PathsOf(fs)
  {
    forall f | f in fs
      ensures f.Where() in Places(Arrivals(fs))
    {
      assert Arrival(f.Where(), f.sum) in Arrivals(fs);
    }
  }

  lemma NothingArrives()
    ensures Arrivals([]) == {} && Places({}) == {} && PathsOf([]) == {}
  {
  }

  // ----- Files that stay beside -----

  /** Of some files, none at the path brings what is on disk. */
  predicate NoneMatches(s: State, fs: seq<File>, k: Path, o: Settings)
    requires k in s.disk
  {
    forall f | f in fs && f.Where() == k :: !Matches(f.sum, s.disk[k], o)
  }

  /** A local change that is to be kept, with the new version still staged. */
  predicate Waiting(s: State, k: Path, guarded: bool, o: Settings) {
    k in s.staged && k in s.disk && !FromOverlay(s, k) && KeptAt(s, k, guarded, o) && !o.cleanProtected
  }

  lemma OneStaged(s: State, f: File, o: Settings, pending: set<File>, guarded: bool)
    requires Agree(s, pending) && f in pending && !f.diri.pkg.overlay && f.diri.guarded == guarded
    ensures
      var t, k := MigrateFile(s, f, o), f.Where();
      if Waiting(s, k, guarded, o) && !Matches(f.sum, s.disk[k], o) then
        Waiting(t, k, guarded, o) && t.disk[k] == s.disk[k] && t.staged[k] == s.staged[k]
      else k !in t.staged
  {
    hide Agree, Claim;
    MigrateHere(s, f, o);
    ClaimsPath(s, f, o, pending);
  }

  lemma {:induction false} UnstagedStays(
    s: State, fs: seq<File>, o: Settings, pending: set<File>, k: Path, guarded: bool)
    requires Agree(s, pending) && NoTwice(fs) && Elements(fs) <= pending && k !in s.staged
    requires forall f | f in fs :: Placed(f, k, guarded)
    ensures k !in MigrateFiles(s, fs, o).staged
    decreases fs
  {
    hide Agree, NoTwice, MigrateFile, Matches, PathsOf, Waiting;
    if fs != [] {
      var f, t := fs[0], MigrateFile(s, fs[0], o);
      Rest(fs, pending);
      MigrateOne(s, f, o, pending);
      if f.Where() == k { WaitsStaged(s, k, guarded, o); OneStaged(s, f, o, pending, guarded); } else { MigrateElsewhere(s, f, o, k); }
      UnstagedStays(t, fs[1..], o, pending - {f}, k, guarded);
    }
  }

  lemma WaitsStaged(s: State, k: Path, guarded: bool, o: Settings)
    ensures Waiting(s, k, guarded, o) ==> k in s.staged && k in s.disk
  {
  }

  lemma {:induction false} WaitingStays(
    s: State, fs: seq<File>, o: Settings, pending: set<File>, k: Path, guarded: bool)
    requires Agree(s, pending) && NoTwice(fs) && Elements(fs) <= pending
    requires k in s.staged && k in s.disk && Waiting(s, k, guarded, o) && forall f | f in fs :: Placed(f, k, guarded)
    ensures
      var t := MigrateFiles(s, fs, o);
      if NoneMatches(s, fs, k, o) then k in t.staged && t.staged[k] == s.staged[k] else k !in t.staged
    decreases fs
  {
    hide Agree, NoTwice, MigrateFile, Matches, PathsOf, Waiting;
    if fs != [] {
      var f, t := fs[0], MigrateFile(s, fs[0], o);
      Rest(fs, pending);
      MigrateOne(s, f, o, pending);
      assert forall g | g in fs :: g == f || g in fs[1..];
      if f.Where() == k {
        OneStaged(s, f, o, pending, guarded);
        if !Matches(f.sum, s.disk[k], o) {
          WaitsStaged(t, k, guarded, o);
          WaitingStays(t, fs[1..], o, pending - {f}, k, guarded);
        } else {
          UnstagedStays(t, fs[1..], o, pending - {f}, k, guarded);
        }
      } else {
        MigrateElsewhere(s, f, o, k);
        WaitingAlike(s, t, k, guarded, o);
        WaitingStays(t, fs[1..], o, pending - {f}, k, guarded);
      }
    }
  }

  lemma WaitingAlike(s: State, t: State, k: Path, guarded: bool, o: Settings)
    requires Alike(s, t, k)
    ensures Waiting(s, k, guarded, o) == Waiting(t, k, guarded, o)
  {
  }

  /** What becomes of the staged version at a path that the package brings, repetitions included. */
  lemma {:induction false} StagedAfter(
    s: State, fs: seq<File>, o: Settings, pending: set<File>, k: Path, guarded: bool)
    requires Agree(s, pending) && NoTwice(fs) && Elements(fs) <= pending && k in PathsOf(fs)
    requires forall f | f in fs :: Placed(f, k, guarded)
    ensures
      var t := MigrateFiles(s, fs, o);
      if k in s.disk && k in s.staged && Waiting(s, k, guarded, o) && NoneMatches(s, fs, k, o) then
        k in t.staged && t.staged[k] == s.staged[k]
      else k !in t.staged
    decreases fs
  {
    assert fs != [];
    hide Agree, NoTwice, MigrateFile, Matches, PathsOf, Waiting, NoneMatches;
    WaitsStaged(s, k, guarded, o);
    if Waiting(s, k, guarded, o) {
      WaitingStays(s, fs, o, pending, k, guarded);
    } else {
      var f, t := fs[0], MigrateFile(s, fs[0], o);
      Rest(fs, pending);
      MigrateOne(s, f, o, pending);
      if f.Where() == k {
        OneStaged(s, f, o, pending, guarded);
        UnstagedStays(t, fs[1..], o, pending - {f}, k, guarded);
      } else {
        MigrateElsewhere(s, f, o, k);
        WaitingAlike(s, t, k, guarded, o);
        StagedAfter(t, fs[1..], o, pending - {f}, k, guarded);
      }
    }
  }

  // ----- The whole of an installation -----

  lemma KeptIs(s: State, u: State, f: File, o: Settings)
    requires u.index == s.index && u.disk == s.disk
    ensures Kept(u, f, o) == KeptAt(s, f.Where(), f.diri.guarded, o)
  {
  }

  lemma PlaceOf(s: State, pkg: Package, f: File)
    requires Unpacked(s, pkg) && f in FilesOf(s, pkg)
    ensures pkg in s.dirs && f.diri in s.dirs[pkg]
  {
    UnpackedShape(s, pkg);
    FilesOfIs(s, pkg);
    OwnDirs(s, pkg);
    hide Unpacked, Shaped, FilesOf;
  }

  /** The staged versions after the migration of what is unpacked in `u` onto `s`. */
  lemma StagedOutcome(s: State, u: State, pkg: Package, guarded: string -> bool, o: Settings, k: Path)
    requires u.index == s.index && u.disk == s.disk && Unpacked(u, pkg) && !pkg.overlay
    requires pkg in u.dirs && forall d | d in u.dirs[pkg] :: d.guarded == guarded(d.dir)
    requires k in PathsOf(FilesOf(u, pkg))
    ensures
      var t, files := MigratePackage(u, pkg, o), Arrivals(FilesOf(u, pkg));
      if k in u.staged && StaysBeside(s, k, guarded(k.dir), files, o) then k in t.staged && t.staged[k] == u.staged[k]
      else k !in t.staged
  {
    hide FilesOf, Unpacked, Waiting, MigrateFiles, GuardedByName, Agree, NoneMatches, StaysBeside;
    var fs := FilesOf(u, pkg);
    var f :| f in fs && f.Where() == k;
    PlaceOf(u, pkg, f);
    ByNames(u.dirs[pkg], guarded);
    FilesArePlaced(u, pkg, f);
    UnpackedAgrees(u, pkg);
    WaitsStaged(u, k, guarded(k.dir), o);
    StagedAfter(u, fs, o, Elements(fs), k, guarded(k.dir));
    StaysIs(s, u, fs, k, guarded(k.dir), o);
  }

  lemma ByNames(ds: seq<Instance>, guarded: string -> bool)
    requires forall d | d in ds :: d.guarded == guarded(d.dir)
    ensures GuardedByName(ds)
  {
  }

  lemma StaysIs(s: State, u: State, fs: seq<File>, k: Path, guarded: bool, o: Settings)
    requires u.index == s.index && u.disk == s.disk
    ensures k in u.staged ==>
              (StaysBeside(s, k, guarded, Arrivals(fs), o) <==>
                 k in u.disk && Waiting(u, k, guarded, o) && NoneMatches(u, fs, k, o))
  {
    if k in u.disk {
      forall f | f in fs && f.Where() == k
        ensures Arrival(k, f.sum) in Arrivals(fs)
      {
      }
    }
  }

  lemma UpgradeOnDisk(s: State, u: State, was: Package, pkg: Package, guarded: string -> bool, o: Settings)
    requires u.index == s.index && u.disk == s.disk && FilesOf(u, was) == FilesOf(s, was)
    requires Unpacked(u, pkg) && was in u.dirs && was != pkg && !pkg.overlay
    requires pkg in u.dirs && forall d | d in u.dirs[pkg] :: d.guarded == guarded(d.dir)
    ensures OnDisk(s, Upgrade(u, was, pkg, o), Some(was), Arrivals(FilesOf(u, pkg)), u.staged, guarded, o)
  {
    hide FilesOf, Unpacked, Kept, KeptAt, Upgrade, Unlinks, StaysBeside, Arrivals, Places, MigratePackage;
    var t, paths := Upgrade(u, was, pkg, o), PathsOf(FilesOf(u, pkg));
    PlacesOf(FilesOf(u, pkg));
    UpgradeStages(u, was, pkg, o);
    forall k | k in paths
      ensures if !KeptAt(s, k, guarded(k.dir), o) && k in u.staged then k in t.disk && t.disk[k] == u.staged[k]
              else SameAt(t.disk, s.disk, k)
    {
      var f :| f in FilesOf(u, pkg) && f.Where() == k;
      PlaceOf(u, pkg, f);
      KeptIs(s, u, f, o);
      ByNames(u.dirs[pkg], guarded);
      UpgradeInstalls(u, was, pkg, o, f);
    }
    forall f | f in FilesOf(s, was) && f.Where() !in paths
      ensures GoneUnlessKept(s, t, f, o)
    {
      UpgradeRemoves(u, was, pkg, o, f);
    }
    forall k | k !in paths && k !in PathsOf(FilesOf(s, was))
      ensures SameAt(t.disk, s.disk, k)
    {
      UpgradeSpares(u, was, pkg, o, k);
    }
    StagedOutcomes(s, u, pkg, guarded, o);
  }

  lemma StagedOutcomes(s: State, u: State, pkg: Package, guarded: string -> bool, o: Settings)
    requires u.index == s.index && u.disk == s.disk && Unpacked(u, pkg) && !pkg.overlay
    requires pkg in u.dirs && forall d | d in u.dirs[pkg] :: d.guarded == guarded(d.dir)
    ensures
      var t, files, paths := MigratePackage(u, pkg, o), Arrivals(FilesOf(u, pkg)), PathsOf(FilesOf(u, pkg));
      && (forall k | k in paths ::
            if k in u.staged && StaysBeside(s, k, guarded(k.dir), files, o) then
              k in t.staged && t.staged[k] == u.staged[k]
            else k !in t.staged)
      && (forall k | k !in paths :: SameAt(t.staged, u.staged, k))
  {
    hide FilesOf, Unpacked, StaysBeside, Arrivals, MigrateFiles;
    forall k | k in PathsOf(FilesOf(u, pkg))
      ensures
        var t, files := MigratePackage(u, pkg, o), Arrivals(FilesOf(u, pkg));
        if k in u.staged && StaysBeside(s, k, guarded(k.dir), files, o) then k in t.staged && t.staged[k] == u.staged[k]
        else k !in t.staged
    {
      StagedOutcome(s, u, pkg, guarded, o, k);
    }
    forall k | k !in PathsOf(FilesOf(u, pkg))
      ensures SameAt(MigratePackage(u, pkg, o).staged, u.staged, k)
    {
      MigrateFilesElsewhere(u, FilesOf(u, pkg), o, k);
    }
  }

  /** The purge leaves staged files alone. */
  lemma UpgradeStages(u: State, was: Package, pkg: Package, o: Settings)
    ensures Upgrade(u, was, pkg, o).staged == MigratePackage(u, pkg, o).staged
  {
    hide MigratePackage, FilesOf;
    var t := MigratePackage(u, pkg, o);
    PurgeStages(t, FilesOf(t, was), o);
  }

  lemma {:induction false} PurgeStages(s: State, fs: seq<File>, o: Settings)
    ensures PurgeFiles(s, fs, o).staged == s.staged
    decreases fs
  {
    hide Unlinks, Without;
    if fs != [] { PurgeStages(PurgeFile(s, fs[0], o), fs[1..], o); }
  }

  lemma FreshOnDisk(s: State, u: State, pkg: Package, guarded: string -> bool, o: Settings)
    requires u.index == s.index && u.disk == s.disk && Unpacked(u, pkg) && !pkg.overlay
    requires pkg in u.dirs && forall d | d in u.dirs[pkg] :: d.guarded == guarded(d.dir)
    ensures OnDisk(s, MigratePackage(u, pkg, o), None, Arrivals(FilesOf(u, pkg)), u.staged, guarded, o)
  {
    hide FilesOf, Unpacked, Kept, KeptAt, Settle, MigrateFiles, Unlinks, StaysBeside, Arrivals, Places;
    var t, paths := MigratePackage(u, pkg, o), PathsOf(FilesOf(u, pkg));
    PlacesOf(FilesOf(u, pkg));
    forall k | k in paths
      ensures if !KeptAt(s, k, guarded(k.dir), o) && k in u.staged then k in t.disk && t.disk[k] == u.staged[k]
              else SameAt(t.disk, s.disk, k)
    {
      var f :| f in FilesOf(u, pkg) && f.Where() == k;
      PlaceOf(u, pkg, f);
      KeptIs(s, u, f, o);
      ByNames(u.dirs[pkg], guarded);
      MigrateInstalls(u, pkg, o, f);
      SettledDisk(u, f, o);
    }
    forall k | k !in paths
      ensures SameAt(t.disk, s.disk, k)
    {
      MigrateFilesElsewhere(u, FilesOf(u, pkg), o, k);
    }
    StagedOutcomes(s, u, pkg, guarded, o);
  }
}
