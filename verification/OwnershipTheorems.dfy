/** What an installation, an upgrade and a removal do to ownership and to the disk. */
module OwnershipTheorems {
  import opened Wrappers
  import opened Ownership
  import opened OwnershipKept

  /** All files of the package are unpacked, and none of them is in the index yet. */
  predicate Unpacked(s: State, pkg: Package) {
    pkg in s.dirs && Agree(s, Elements(FilesOf(s, pkg)))
  }

  lemma UnpackedShape(s: State, pkg: Package)
    requires Unpacked(s, pkg)
    ensures Shaped(s) && pkg in s.dirs
  {
  }

  lemma OwnDirs(s: State, p: Package)
    requires Shaped(s) && p in s.dirs
    ensures forall d | d in s.lists :: d.pkg != p <==> d !in s.dirs[p]
  {
  }

  lemma MigratePackageKeeps(s: State, pkg: Package, o: Settings)
    requires Unpacked(s, pkg)
    ensures
      var fs := FilesOf(s, pkg);
      var t := MigratePackage(s, pkg, o);
      && NoTwice(fs) && Agree(t, {}) && Taken(s, t, fs)
      && forall d | d in s.lists && d.pkg != pkg :: t.lists[d] == Unclaimed(s.lists[d], PathsOf(fs))
  {
    var fs := FilesOf(s, pkg);
    AgreeIsShaped(s, Elements(fs));
    hide Agree, FilesOf, MigrateFiles;
    FilesOfIs(s, pkg);
    MigrateKeeps(s, fs, o, Elements(fs));
    assert Elements(fs) - Elements(fs) == {};
    forall d | d in s.lists && d.pkg != pkg
      ensures MigrateFiles(s, fs, o).lists[d] == Unclaimed(s.lists[d], PathsOf(fs))
    {
      forall g | g in s.lists[d]
        ensures g !in Elements(fs)
      {
        HomeOf(s, d, g);
      }
      MigrateTakes(s, fs, o, Elements(fs), d);
    }
  }

  lemma EmptiedKeeps(s: State, p: Package)
    requires Agree(s, {}) && p in s.dirs && forall d | d in s.lists && d.pkg == p :: s.lists[d] == []
    ensures Agree(Uninstall(Emptied(s, p), p), {})
  {
    hide Homed, Rooted, Linked;
    var kept := map d | d in s.lists && d.pkg != p :: s.lists[d];
    EmptiedRoots(s.dirs, s.lists.Keys, p);
    EmptiedLinks(s.index, s.lists, kept);
    assert s.dirs[p := []] - {p} == s.dirs - {p};
    assert kept.Keys == set d | d in s.lists.Keys && d.pkg != p;
    assert Uninstall(Emptied(s, p), p) == s.(dirs := s.dirs - {p}, lists := kept);
  }

  lemma EmptiedLinks(index: map<Path, File>, lists: map<Instance, seq<File>>, kept: map<Instance, seq<File>>)
    requires Linked(index, lists, {})
    requires kept.Keys <= lists.Keys && forall d | d in lists :: if d in kept then kept[d] == lists[d] else lists[d] == []
    ensures Linked(index, kept, {})
  {
  }

  lemma EmptiedRoots(dirs: map<Package, seq<Instance>>, all: set<Instance>, p: Package)
    requires Rooted(dirs, all)
    ensures Rooted(dirs - {p}, set d | d in all && d.pkg != p)
  {
  }

  lemma PurgedLists(s: State, p: Package, o: Settings)
    requires Agree(s, {}) && p in s.dirs
    ensures
      var t := PurgeFiles(s, FilesOf(s, p), o);
      && Agree(t, {}) && t.dirs == s.dirs && t.lists.Keys == s.lists.Keys && t.index == s.index - PathsOf(FilesOf(s, p))
      && forall d | d in s.lists :: t.lists[d] == if d.pkg == p then [] else s.lists[d]
  {
    AgreeIsShaped(s, {});
    hide Agree, Shaped, FilesOf, PurgeFiles, Listed, Minus;
    var fs := FilesOf(s, p);
    FilesOfIs(s, p);
    PurgeKeeps(s, fs, o);
    var t := PurgeFiles(s, fs, o);
    AgreeIsShaped(t, {});
    forall d | d in s.lists
      ensures t.lists[d] == if d.pkg == p then [] else s.lists[d]
    {
      if d.pkg != p {
        assert forall f | f in fs :: f.diri != d;
        PurgeSpares(s, fs, o, d);
      } else {
        assert Minus(t.lists[d], s.lists[d], fs);
        NoneLeft(t.lists[d], s.lists[d], fs);
      }
    }
  }

  lemma NoneLeft(left: seq<File>, all: seq<File>, gone: seq<File>)
    requires Minus(left, all, gone) && forall f | f in all :: f in gone
    ensures left == []
  {
    FirstIn(left);
  }

  lemma FirstIn<T>(s: seq<T>)
    ensures s == [] || s[0] in s
  {
  }

  /** Removing a package removes exactly its paths from the index; no other list changes. */
  lemma RemovalOwnership(s: State, p: Package, o: Settings)
    requires Agree(s, {}) && p in s.dirs
    ensures
      var t := Uninstall(PurgePackage(s, p, o), p);
      && Agree(t, {}) && t.index == s.index - PathsOf(FilesOf(s, p)) && t.dirs == s.dirs - {p}
      && t.lists.Keys == (set d | d in s.lists && d.pkg != p)
      && forall d | d in t.lists :: t.lists[d] == s.lists[d]
  {
    hide Agree, FilesOf, PurgeFiles;
    PurgedLists(s, p, o);
    EmptiedKeeps(PurgeFiles(s, FilesOf(s, p), o), p);
  }

  lemma {:induction false} Leftovers(s: State, was: Package, t: State, paths: set<Path>)
    requires Shaped(s) && Shaped(t) && t.dirs == s.dirs && was in s.dirs && t.lists.Keys == s.lists.Keys
    requires forall d | d in s.lists && d.pkg == was :: t.lists[d] == Unclaimed(s.lists[d], paths)
    ensures PathsOf(FilesOf(t, was)) == PathsOf(FilesOf(s, was)) - paths
    ensures forall f | f in FilesOf(s, was) && f.Where() !in paths :: f in FilesOf(t, was)
  {
    hide Shaped, FilesOf, Unclaimed;
    FilesOfIs(s, was);
    FilesOfIs(t, was);
    forall f | f in FilesOf(t, was)
      ensures f in FilesOf(s, was) && f.Where() !in paths
    {
      UnclaimedIs(s.lists[f.diri], paths);
    }
    forall f | f in FilesOf(s, was) && f.Where() !in paths
      ensures f in FilesOf(t, was)
    {
      UnclaimedIs(s.lists[f.diri], paths);
      assert f in t.lists[f.diri];
    }
    forall k | k in PathsOf(FilesOf(s, was)) - paths
      ensures k in PathsOf(FilesOf(t, was))
    {
      var f :| f in FilesOf(s, was) && f.Where() == k;
      assert f in FilesOf(t, was);
    }
  }

  /** An upgrade takes the old package's paths out of the index and puts the new one's in; third
      packages lose the paths that were claimed and no others; the index and the lists still agree
      one to one, and their size is the number of files. */
  lemma UpgradeOwnership(s: State, was: Package, pkg: Package, o: Settings)
    requires Unpacked(s, pkg) && was in s.dirs && was != pkg
    ensures
      var t := Upgrade(s, was, pkg, o);
      var paths := PathsOf(FilesOf(s, pkg));
      && Agree(t, {}) && t.dirs.Keys == s.dirs.Keys - {was}
      && t.index.Keys == s.index.Keys - PathsOf(FilesOf(s, was)) + paths
      && (forall k | k in paths :: t.index[k].diri.pkg == pkg)
      && (forall k | k in t.index && k !in paths :: t.index[k] == s.index[k])
      && (forall d | d in s.lists && d.pkg != was && d.pkg != pkg ::
            d in t.lists && t.lists[d] == Unclaimed(s.lists[d], paths))
  {
    AgreeIsShaped(s, Elements(FilesOf(s, pkg)));
    FilesOfIs(s, pkg);
    MigratePackageKeeps(s, pkg, o);
    var fs, t := FilesOf(s, pkg), MigratePackage(s, pkg, o);
    AgreeIsShaped(t, {});
    hide Agree, Shaped, FilesOf, MigratePackage, PurgePackage, Unclaimed;
    Leftovers(s, was, t, PathsOf(fs));
    RemovalOwnership(t, was, o);
    UpgradeIndex(s.index, t.index, fs, FilesOf(s, was), pkg);
  }

  lemma UpgradeIndex(before: map<Path, File>, taken: map<Path, File>, fs: seq<File>, gone: seq<File>, pkg: Package)
    requires taken.Keys == before.Keys + PathsOf(fs) && forall f | f in fs :: f.diri.pkg == pkg
    requires forall k | k in PathsOf(fs) :: taken[k] in fs
    requires forall k | k in before && k !in PathsOf(fs) :: taken[k] == before[k]
    ensures
      var after := taken - (PathsOf(gone) - PathsOf(fs));
      && after.Keys == before.Keys - PathsOf(gone) + PathsOf(fs)
      && (forall k | k in PathsOf(fs) :: after[k].diri.pkg == pkg)
      && (forall k | k in after && k !in PathsOf(fs) :: after[k] == before[k])
  {
  }
}
