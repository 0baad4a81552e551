/** What an upgrade leaves on disk: new contents, kept local changes, and nothing of the old. */
module OwnershipDisk {
  import opened Wrappers
  import opened Ownership
  import opened OwnershipKept
  import opened OwnershipTheorems

  predicate SameAt<K, V(==)>(m: map<K, V>, n: map<K, V>, k: K) { (k in m <==> k in n) && (k in m ==> m[k] == n[k]) }

  predicate Alike(s: State, t: State, k: Path) {
    SameAt(s.index, t.index, k) && SameAt(s.disk, t.disk, k) && SameAt(s.staged, t.staged, k)
  }

  predicate DistinctPaths(fs: seq<File>) { forall i, j | 0 <= i < j < |fs| :: fs[i].Where() != fs[j].Where() }

  // ----- Migrating -----

  lemma MigrateElsewhere(s: State, f: File, o: Settings, k: Path)
    requires k != f.Where()
    ensures Alike(s, MigrateFile(s, f, o), k)
  {
    hide Settle, Claim;
    SettleElsewhere(s, f, o, k);
    ClaimElsewhere(Settle(s, f, o), f, k);
  }

  lemma SettleElsewhere(s: State, f: File, o: Settings, k: Path)
    requires k != f.Where()
    ensures Alike(s, Settle(s, f, o), k)
  {
  }

  lemma ClaimElsewhere(s: State, f: File, k: Path)
    requires k != f.Where()
    ensures Alike(s, Claim(s, f), k)
  {
  }

  lemma MigrateHere(s: State, f: File, o: Settings)
    ensures MigrateFile(s, f, o).disk == Settle(s, f, o).disk
  {
  }

  lemma SettleAlike(s: State, t: State, f: File, o: Settings)
    requires Alike(s, t, f.Where())
    ensures Kept(s, f, o) == Kept(t, f, o)
    ensures SameAt(Settle(s, f, o).disk, Settle(t, f, o).disk, f.Where())
  {
  }

  /** The file on disk stays: it is the overlay's, or was changed locally. */
  predicate Kept(s: State, f: File, o: Settings) { FromOverlay(s, f.Where()) || LocallyChanged(s, f, o) }

  lemma {:induction false} MigrateFilesElsewhere(s: State, fs: seq<File>, o: Settings, k: Path)
    requires k !in PathsOf(fs)
    ensures Alike(s, MigrateFiles(s, fs, o), k)
    decreases fs
  {
    hide MigrateFile;
    if fs != [] {
      assert fs[0] in fs && forall f | f in fs[1..] :: f in fs;
      MigrateElsewhere(s, fs[0], o, k);
      MigrateFilesElsewhere(MigrateFile(s, fs[0], o), fs[1..], o, k);
    }
  }

  /** The path has been dealt with: nothing is staged for it, or what is on disk was changed locally
      and would be found so again. */
  predicate Settled(s: State, k: Path, guarded: bool, o: Settings) {
    || k !in s.staged
    || (guarded && k in s.disk && k in s.index && !s.index[k].diri.pkg.overlay && !Matches(s.index[k].sum, s.disk[k], o))
  }

  /** Files of a package at a path that is protected or not. */
  predicate Placed(f: File, k: Path, guarded: bool) {
    !f.diri.pkg.overlay && (f.Where() == k ==> f.diri.guarded == guarded)
  }

  lemma FirstSettles(s: State, f: File, o: Settings, pending: set<File>)
    requires Agree(s, pending) && f in pending && !f.diri.pkg.overlay
    ensures Settled(MigrateFile(s, f, o), f.Where(), f.diri.guarded, o)
    ensures MigrateFile(s, f, o).disk == Settle(s, f, o).disk
  {
    hide Agree, Matches, Claim;
    MigrateHere(s, f, o);
    ClaimsPath(s, f, o, pending);
  }

  lemma ClaimsPath(s: State, f: File, o: Settings, pending: set<File>)
    requires Agree(s, pending) && f in pending
    ensures MigrateFile(s, f, o).index == s.index[f.Where() := f] && MigrateFile(s, f, o).staged == Settle(s, f, o).staged
  {
    hide Settle, Agree, Claim, Without;
    MigrateOne(s, f, o, pending);
    ClaimStages(Settle(s, f, o), f);
  }

  lemma ClaimStages(s: State, f: File)
    ensures Claim(s, f).staged == s.staged
  {
    hide Without;
  }

  lemma SettledStays(s: State, f: File, o: Settings, pending: set<File>)
    requires Agree(s, pending) && f in pending && !f.diri.pkg.overlay && Settled(s, f.Where(), f.diri.guarded, o)
    ensures Settled(MigrateFile(s, f, o), f.Where(), f.diri.guarded, o)
    ensures SameAt(MigrateFile(s, f, o).disk, s.disk, f.Where())
  {
    FirstSettles(s, f, o, pending);
    hide Agree, Matches, MigrateFile;
  }

  lemma {:induction false} SettledToTheEnd(
    s: State, fs: seq<File>, o: Settings, pending: set<File>, k: Path, guarded: bool)
    requires Agree(s, pending) && NoTwice(fs) && Elements(fs) <= pending && Settled(s, k, guarded, o)
    requires forall f | f in fs :: Placed(f, k, guarded)
    ensures SameAt(MigrateFiles(s, fs, o).disk, s.disk, k)
    decreases fs
  {
    hide Agree, NoTwice, MigrateFile, Matches, PathsOf;
    if fs != [] {
      var f, t := fs[0], MigrateFile(s, fs[0], o);
      Rest(fs, pending);
      MigrateOne(s, f, o, pending);
      if f.Where() == k { SettledStays(s, f, o, pending); } else { MigrateElsewhere(s, f, o, k); }
      SettledToTheEnd(t, fs[1..], o, pending - {f}, k, guarded);
    }
  }

  lemma SettleSamePath(s: State, f: File, g: File, o: Settings)
    requires f.Where() == g.Where() && f.diri.guarded == g.diri.guarded
    ensures Settle(s, f, o).disk == Settle(s, g, o).disk
  {
    hide Matches;
  }

  /** What happens to a path does not depend on the other files, nor on a repetition of the path. */
  lemma {:induction false} MigrateFilesHere(s: State, fs: seq<File>, o: Settings, pending: set<File>, i: nat)
    requires Agree(s, pending) && NoTwice(fs) && Elements(fs) <= pending && i < |fs|
    requires forall f | f in fs :: Placed(f, fs[i].Where(), fs[i].diri.guarded)
    ensures SameAt(MigrateFiles(s, fs, o).disk, Settle(s, fs[i], o).disk, fs[i].Where())
    decreases fs
  {
    hide Agree, NoTwice, MigrateFile, Settle, Settled, PathsOf;
    var f, k, t := fs[0], fs[i].Where(), MigrateFile(s, fs[0], o);
    Rest(fs, pending);
    MigrateOne(s, f, o, pending);
    if f.Where() == k {
      SettleSamePath(s, f, fs[i], o);
      FirstSettles(s, f, o, pending);
      SettledToTheEnd(t, fs[1..], o, pending - {f}, k, fs[i].diri.guarded);
    } else {
      MigrateElsewhere(s, f, o, k);
      SettleAlike(s, t, fs[i], o);
      MigrateFilesHere(t, fs[1..], o, pending - {f}, i - 1);
    }
  }

  // ----- Purging -----

  lemma {:induction false} PurgeElsewhere(s: State, fs: seq<File>, o: Settings, k: Path)
    requires k !in PathsOf(fs)
    ensures SameAt(PurgeFiles(s, fs, o).disk, s.disk, k)
    decreases fs
  {
    hide Unlinks, Without;
    if fs != [] {
      assert fs[0] in fs && forall f | f in fs[1..] :: f in fs;
      PurgeElsewhere(PurgeFile(s, fs[0], o), fs[1..], o, k);
    }
  }

  /** A file that is no longer anybody's stays only as a local change in a protected directory. */
  predicate GoneUnlessKept(s: State, t: State, f: File, o: Settings) {
    var k := f.Where();
    && (k in t.disk <==>
          && k in s.disk && f.diri.guarded && !o.purge
          && (f.sum.kind.NoSum? || o.digest(f.sum.kind, s.disk[k]) != f.sum.digest))
    && (k in t.disk ==> t.disk[k] == s.disk[k])
  }

  lemma {:induction false} PurgeHere(s: State, fs: seq<File>, o: Settings, i: nat)
    requires i < |fs| && DistinctPaths(fs)
    ensures GoneUnlessKept(s, PurgeFiles(s, fs, o), fs[i], o)
    decreases fs
  {
    hide Without;
    var t := PurgeFile(s, fs[0], o);
    if i == 0 {
      forall f | f in fs[1..]
        ensures f.Where() != fs[0].Where()
      {
        var j :| 0 <= j < |fs[1..]| && fs[1..][j] == f;
        assert fs[j + 1] == f;
      }
      PurgeElsewhere(t, fs[1..], o, fs[0].Where());
    } else {
      assert Unlinks(t.disk, fs[i], o) == Unlinks(s.disk, fs[i], o);
      PurgeHere(t, fs[1..], o, i - 1);
    }
  }

  lemma IndexedPathsDiffer(s: State, fs: seq<File>)
    requires NoTwice(fs) && forall f | f in fs :: Indexed(s.index, f)
    ensures DistinctPaths(fs)
  {
    forall i, j | 0 <= i < j < |fs|
      ensures fs[i].Where() != fs[j].Where()
    {
      assert fs[i] in fs && fs[j] in fs;
    }
  }

  // ----- The upgrade -----

  /** Whether a path is protected is up to its directory. */
  predicate GuardedByName(ds: seq<Instance>) {
    forall d, e | d in ds && e in ds && d.dir == e.dir :: d.guarded == e.guarded
  }

  /** A path that the new package owns gets the contents that were unpacked last, unless it is the
      overlay's, or lies in a protected directory and was changed locally: then it is left as it is.
      The purge never takes it away. */
  lemma UpgradeInstalls(s: State, was: Package, pkg: Package, o: Settings, f: File)
    requires Unpacked(s, pkg) && was in s.dirs && was != pkg && !pkg.overlay
    requires GuardedByName(s.dirs[pkg]) && f in FilesOf(s, pkg)
    ensures
      var t, k := Upgrade(s, was, pkg, o), f.Where();
      if !Kept(s, f, o) && k in s.staged then k in t.disk && t.disk[k] == s.staged[k] else SameAt(t.disk, s.disk, k)
  {
    hide FilesOf, PurgeFiles, MigrateFiles, Unpacked, Kept, Settle, Agree, GuardedByName;
    MigrateInstalls(s, pkg, o, f);
    SettledDisk(s, f, o);
    LeftoversOf(s, was, pkg, o);
    assert f.Where() in PathsOf(FilesOf(s, pkg));
    PurgeElsewhere(MigratePackage(s, pkg, o), FilesOf(MigratePackage(s, pkg, o), was), o, f.Where());
  }

  lemma MigrateInstalls(s: State, pkg: Package, o: Settings, f: File)
    requires Unpacked(s, pkg) && !pkg.overlay && GuardedByName(s.dirs[pkg]) && f in FilesOf(s, pkg)
    ensures SameAt(MigratePackage(s, pkg, o).disk, Settle(s, f, o).disk, f.Where())
  {
    UnpackedAgrees(s, pkg);
    hide FilesOf, MigrateFiles, Unpacked, Agree, GuardedByName, Settle;
    var fs := FilesOf(s, pkg);
    var i :| 0 <= i < |fs| && fs[i] == f;
    FilesArePlaced(s, pkg, f);
    MigrateFilesHere(s, fs, o, Elements(fs), i);
  }

  lemma SettledDisk(s: State, f: File, o: Settings)
    ensures
      var t, k := Settle(s, f, o), f.Where();
      if !Kept(s, f, o) && k in s.staged then k in t.disk && t.disk[k] == s.staged[k] else SameAt(t.disk, s.disk, k)
  {
    hide Matches;
  }

  lemma UnpackedAgrees(s: State, pkg: Package)
    requires Unpacked(s, pkg)
    ensures Agree(s, Elements(FilesOf(s, pkg)))
  {
  }

  lemma FilesArePlaced(s: State, pkg: Package, f: File)
    requires Unpacked(s, pkg) && !pkg.overlay && GuardedByName(s.dirs[pkg]) && f in FilesOf(s, pkg)
    ensures NoTwice(FilesOf(s, pkg)) && forall g | g in FilesOf(s, pkg) :: Placed(g, f.Where(), f.diri.guarded)
  {
    UnpackedShape(s, pkg);
    FilesOfIs(s, pkg);
    OwnDirs(s, pkg);
    hide Unpacked, Shaped, FilesOf;
  }

  lemma LeftoversOf(s: State, was: Package, pkg: Package, o: Settings)
    requires Unpacked(s, pkg) && was in s.dirs && was != pkg
    ensures
      var t := MigratePackage(s, pkg, o);
      && Agree(t, {}) && was in t.dirs
      && PathsOf(FilesOf(t, was)) == PathsOf(FilesOf(s, was)) - PathsOf(FilesOf(s, pkg))
      && forall f | f in FilesOf(s, was) && f.Where() !in PathsOf(FilesOf(s, pkg)) :: f in FilesOf(t, was)
  {
    UnpackedShape(s, pkg);
    MigratePackageKeeps(s, pkg, o);
    hide Agree, Shaped, FilesOf, MigratePackage, Unclaimed, Unpacked;
    var t := MigratePackage(s, pkg, o);
    AgreeIsShaped(t, {});
    Leftovers(s, was, t, PathsOf(FilesOf(s, pkg)));
  }

  lemma PathsDiffer(s: State, p: Package)
    requires Agree(s, {}) && p in s.dirs
    ensures DistinctPaths(FilesOf(s, p))
  {
    FilesOfIs(s, p);
    hide Shaped, FilesOf;
    forall f | f in FilesOf(s, p)
      ensures Indexed(s.index, f)
    {
      assert f in s.lists[f.diri];
    }
    IndexedPathsDiffer(s, FilesOf(s, p));
  }

  /** A path that only the old package owned is removed, unless it is kept as a local change. */
  lemma UpgradeRemoves(s: State, was: Package, pkg: Package, o: Settings, f: File)
    requires Unpacked(s, pkg) && was in s.dirs && was != pkg
    requires f in FilesOf(s, was) && f.Where() !in PathsOf(FilesOf(s, pkg))
    ensures GoneUnlessKept(s, Upgrade(s, was, pkg, o), f, o)
  {
    hide Agree, FilesOf, PurgeFiles, MigrateFiles, Unpacked, Unlinks;
    LeftoversOf(s, was, pkg, o);
    var t := MigratePackage(s, pkg, o);
    MigrateFilesElsewhere(s, FilesOf(s, pkg), o, f.Where());
    UnlinksAlike(s.disk, t.disk, f, o);
    var gone := FilesOf(t, was);
    PathsDiffer(t, was);
    var i :| 0 <= i < |gone| && gone[i] == f;
    PurgeHere(t, gone, o, i);
  }

  lemma UnlinksAlike(disk: map<Path, Content>, disk': map<Path, Content>, f: File, o: Settings)
    requires SameAt(disk, disk', f.Where())
    ensures Unlinks(disk, f, o) == Unlinks(disk', f, o)
  {
  }

  /** Nobody else's file is touched. */
  lemma UpgradeSpares(s: State, was: Package, pkg: Package, o: Settings, k: Path)
    requires Unpacked(s, pkg) && was in s.dirs && was != pkg
    requires k !in PathsOf(FilesOf(s, pkg)) && k !in PathsOf(FilesOf(s, was))
    ensures SameAt(Upgrade(s, was, pkg, o).disk, s.disk, k)
  {
    LeftoversOf(s, was, pkg, o);
    var t, fs := MigratePackage(s, pkg, o), FilesOf(s, pkg);
    hide FilesOf, PurgeFiles, MigrateFiles, Unpacked;
    MigrateFilesElsewhere(s, fs, o, k);
    PurgeElsewhere(t, FilesOf(t, was), o, k);
  }
}
