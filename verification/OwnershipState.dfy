/** The code of apk-tools/src/database.c that moves files between owners, on its own state. */
module OwnershipState {
  import opened Wrappers
  import opened Codec
  import opened Ownership
  import opened OwnershipKept
  import opened OwnershipTheorems

  class Database {
    var index: map<Path, File>
    var lists: map<Instance, seq<File>>
    var dirs: map<Package, seq<Instance>>
    var count: int
    var disk: map<Path, Content>
    var staged: map<Path, Content>

    ghost function Now(): State
      reads this
    {
      State(index, lists, dirs, count, disk, staged)
    }

    // ----- apk_db_migrate_files -----

    method SettleFile(f: File, o: Settings)
      modifies this
      ensures Now() == Settle(old(Now()), f, o)
    {
      var k := f.Where();
      var known := k in index && index[k].sum.kind != NoSum && k in disk &&
                   o.digest(index[k].sum.kind, disk[k]) == index[k].sum.digest;
      if k in index && index[k].diri.pkg.overlay {
        staged := staged - {k};
      } else if f.diri.guarded && k in disk && (k !in index || !known) {
        if o.cleanProtected || (f.sum.kind != NoSum && o.digest(f.sum.kind, disk[k]) == f.sum.digest) {
          staged := staged - {k};
        }
      } else if k in staged {
        disk, staged := disk[k := staged[k]], staged - {k};
      }
    }

    method ClaimFile(f: File)
      requires f.Where() in index ==> index[f.Where()].diri in lists
      modifies this
      ensures Now() == Claim(old(Now()), f)
    {
      var k := f.Where();
      if k in index {
        var g := index[k];
        if g == f { return; }
        lists := lists[g.diri := Without(lists[g.diri], g)];
        index := index - {k};
      } else {
        count := count + 1;
      }
      index := index[k := f];
    }

    method MigrateOneFile(f: File, o: Settings)
      requires f.Where() in index ==> index[f.Where()].diri in lists
      modifies this
      ensures Now() == MigrateFile(old(Now()), f, o)
    {
      hide Settle, Claim;
      SettleIs(Now(), f, o);
      SettleFile(f, o);
      ClaimFile(f);
    }

    /** Walks over the directories and their files while claims change the lists of others. */
    method Migrate(pkg: Package, o: Settings)
      requires Unpacked(Now(), pkg)
      modifies this
      ensures Now() == MigratePackage(old(Now()), pkg, o)
    {
      ghost var s := Now();
      ghost var pending := Elements(FilesOf(s, pkg));
      AgreeIsShaped(s, pending);
      FilesOfIs(s, pkg);
      RootsIn(s, pkg);
      hide Agree, FilesIn, MigrateFile, Shaped, Settle, Claim;
      MigrateDirs(dirs[pkg], pending, o);
    }

    method MigrateDirs(ds: seq<Instance>, ghost all: set<File>, o: Settings)
      requires Agree(Now(), all) && (forall d | d in ds :: d in lists)
      requires Elements(FilesIn(Now(), ds)) <= all && NoTwice(FilesIn(Now(), ds))
      modifies this
      ensures Now() == MigrateFiles(old(Now()), FilesIn(old(Now()), ds), o)
    {
      hide Agree, FilesIn, Elements, NoTwice, MigrateFiles;
      ghost var s, pending := Now(), all;
      assert ds[0..] == ds;
      for i := 0 to |ds|
        invariant MigrateFiles(Now(), FilesIn(s, ds[i..]), o) == MigrateFiles(s, FilesIn(s, ds), o)
        invariant Agree(Now(), pending) && Elements(FilesIn(s, ds[i..])) <= pending && NoTwice(FilesIn(s, ds[i..]))
        invariant lists.Keys == s.lists.Keys && forall d | d in ds[i..] :: lists[d] == s.lists[d]
      {
        FilesInCons(s, ds, i);
        FilesInHas(s, ds[i + 1..]);
        assert ds[i] in ds[i..] && forall d | d in ds[i + 1..] :: d in ds[i..];
        NoTwiceTail(lists[ds[i]], FilesIn(s, ds[i + 1..]));
        pending := MigrateDir(ds[i], FilesIn(s, ds[i + 1..]), pending, o);
      }
      assert ds[|ds|..] == [];
      FilesInNone(s);
      MigrateNone(Now(), o);
    }

    /** `later` are the files of the directories to come. */
    method MigrateDir(diri: Instance, ghost later: seq<File>, ghost pending: set<File>, o: Settings)
      returns (ghost left: set<File>)
      requires diri in lists && Agree(Now(), pending)
      requires Elements(lists[diri] + later) <= pending && NoTwice(lists[diri] + later)
      modifies this
      ensures MigrateFiles(Now(), later, o) == MigrateFiles(old(Now()), old(lists)[diri] + later, o)
      ensures Agree(Now(), left) && Elements(later) <= left
      ensures lists.Keys == old(lists.Keys)
      ensures forall d | d in old(lists) && (forall g | g in old(lists)[d] :: g in later) :: lists[d] == old(lists)[d]
    {
      hide Agree, MigrateFile, NoTwice;
      var rest := lists[diri];
      left := pending;
      while rest != []
        invariant MigrateFiles(Now(), rest + later, o) == MigrateFiles(old(Now()), old(lists)[diri] + later, o)
        invariant Agree(Now(), left) && Elements(rest + later) <= left && NoTwice(rest + later)
        invariant lists.Keys == old(lists.Keys)
        invariant forall d | d in old(lists) && (forall g | g in old(lists)[d] :: g in later) :: lists[d] == old(lists)[d]
        decreases |rest|
      {
        assert (rest + later)[0] == rest[0] && (rest + later)[1..] == rest[1..] + later;
        MigrateStep(Now(), rest + later, o, left);
        MigrateOneFile(rest[0], o);
        left, rest := left - {rest[0]}, rest[1..];
      }
      assert [] + later == later;
    }

    // ----- apk_db_purge_pkg -----

    method PurgeOneFile(f: File, o: Settings)
      requires f.diri in lists
      modifies this
      ensures Now() == PurgeFile(old(Now()), f, o)
    {
      hide Without;
      var k := f.Where();
      if !f.diri.guarded || o.purge ||
         (f.sum.kind != NoSum && k in disk && o.digest(f.sum.kind, disk[k]) == f.sum.digest) {
        disk := disk - {k};
      }
      lists := lists[f.diri := Without(lists[f.diri], f)];
      index, count := index - {k}, count - 1;
    }

    method PurgeDir(diri: Instance, o: Settings)
      requires diri in lists && Homed(diri, lists[diri])
      modifies this
      ensures Now() == PurgeFiles(old(Now()), old(lists)[diri], o) && lists == old(lists)[diri := []]
    {
      hide PurgeFile;
      ghost var s, all := Now(), lists[diri];
      while lists[diri] != []
        invariant diri in lists && lists == s.lists[diri := lists[diri]] && Homed(diri, lists[diri])
        invariant PurgeFiles(Now(), lists[diri], o) == PurgeFiles(s, all, o)
        decreases |lists[diri]|
      {
        FirstGone(Now(), lists[diri], o);
        PurgeOneFile(lists[diri][0], o);
      }
    }

    /** A package's directories are freed one by one, each after its files. */
    method Purge(p: Package, o: Settings)
      requires Shaped(Now()) && p in dirs
      modifies this
      ensures Now() == PurgePackage(old(Now()), p, o)
    {
      hide Freed, PurgePackage, PurgeFiles, Shaped, Homed;
      ghost var s := Now();
      var ds := dirs[p];
      FreedAtFirst(s, p, o);
      for i := 0 to |ds|
        invariant Freed(s, Now(), p, i, o)
      {
        FirstDir(s, p, i);
        FreedHas(s, Now(), p, i, o);
        FreedMore(s, Now(), p, i, o);
        PurgeDir(ds[i], o);
        lists, dirs := lists - {ds[i]}, dirs[p := ds[i + 1..]];
      }
      FreedAtLast(s, Now(), p, o);
    }
  }

  // ----- What purging leaves -----

  function PurgedDisk(disk: map<Path, Content>, fs: seq<File>, o: Settings): map<Path, Content>
    decreases fs
  {
    if fs == [] then disk
    else PurgedDisk(if Unlinks(disk, fs[0], o) then disk - {fs[0].Where()} else disk, fs[1..], o)
  }

  lemma {:induction false} PurgeFilesAre(s: State, fs: seq<File>, o: Settings)
    ensures
      var t := PurgeFiles(s, fs, o);
      && t.index == s.index - PathsOf(fs) && t.count == s.count - |fs| && t.disk == PurgedDisk(s.disk, fs, o)
      && t.staged == s.staged && t.dirs == s.dirs && t.lists.Keys == s.lists.Keys
    decreases fs
  {
    hide Unlinks, Without;
    if fs == [] {
      assert PathsOf(fs) == {} && s.index - {} == s.index;
    } else {
      var t := PurgeFile(s, fs[0], o);
      PurgeFilesAre(t, fs[1..], o);
      assert fs == [fs[0]] + fs[1..];
      PathsOfBoth([fs[0]], fs[1..]);
      assert PathsOf([fs[0]]) == {fs[0].Where()};
      assert t.lists.Keys == s.lists.Keys;
    }
  }

  lemma PathsOfBoth(a: seq<File>, b: seq<File>)
    ensures PathsOf(a + b) == PathsOf(a) + PathsOf(b)
  {
  }

  lemma {:induction false} PurgedBoth(disk: map<Path, Content>, a: seq<File>, b: seq<File>, o: Settings)
    ensures PurgedDisk(disk, a + b, o) == PurgedDisk(PurgedDisk(disk, a, o), b, o)
    decreases a
  {
    hide Unlinks;
    if a == [] {
      assert a + b == b;
    } else {
      assert (a + b)[1..] == a[1..] + b;
      PurgedBoth(if Unlinks(disk, a[0], o) then disk - {a[0].Where()} else disk, a[1..], b, o);
    }
  }

  lemma PurgedNone(s: State, disk: map<Path, Content>, o: Settings)
    ensures FilesIn(s, []) == [] && PathsOf([]) == {} && PurgedDisk(disk, [], o) == disk
  {
  }

  lemma FirstDir(s: State, p: Package, i: nat)
    requires Shaped(s) && p in s.dirs && i < |s.dirs[p]|
    ensures
      var ds := s.dirs[p];
      && ds[i] in s.lists && ds[i] !in ds[..i] && Homed(ds[i], s.lists[ds[i]])
      && FilesIn(s, ds[i..]) == s.lists[ds[i]] + FilesIn(s, ds[i + 1..])
  {
  }

  /** After `i` of the package's directories: what is to come leads to the same end. */
  ghost predicate Freed(s: State, u: State, p: Package, i: nat, o: Settings)
    requires p in s.dirs && i <= |s.dirs[p]|
  {
    var ds := s.dirs[p];
    var all, rest := FilesIn(s, ds), FilesIn(s, ds[i..]);
    && u.index - PathsOf(rest) == s.index - PathsOf(all)
    && u.count - |rest| == s.count - |all|
    && PurgedDisk(u.disk, rest, o) == PurgedDisk(s.disk, all, o)
    && u.staged == s.staged && u.dirs == s.dirs[p := ds[i..]]
    && u.lists == map d | d in s.lists && d !in ds[..i] :: s.lists[d]
  }

  lemma FreedAtFirst(s: State, p: Package, o: Settings)
    requires p in s.dirs
    ensures Freed(s, s, p, 0, o)
  {
  }

  lemma FreedHas(s: State, u: State, p: Package, i: nat, o: Settings)
    requires p in s.dirs && i < |s.dirs[p]| && Freed(s, u, p, i, o)
    requires s.dirs[p][i] in s.lists && s.dirs[p][i] !in s.dirs[p][..i]
    ensures s.dirs[p][i] in u.lists && u.lists[s.dirs[p][i]] == s.lists[s.dirs[p][i]]
  {
  }

  lemma FreedMore(s: State, u: State, p: Package, i: nat, o: Settings)
    requires Shaped(s) && p in s.dirs && i < |s.dirs[p]| && Freed(s, u, p, i, o)
    ensures
      var d := s.dirs[p][i];
      var t := PurgeFiles(u, s.lists[d], o);
      Freed(s, t.(lists := u.lists[d := []] - {d}, dirs := t.dirs[p := s.dirs[p][i + 1..]]), p, i + 1, o)
  {
    FirstDir(s, p, i);
    hide FilesIn, PathsOf, PurgedDisk, Shaped, PurgeFiles, Homed;
    var ds := s.dirs[p];
    var fs, rest := s.lists[ds[i]], FilesIn(s, ds[i + 1..]);
    PurgeFilesAre(u, fs, o);
    PathsOfBoth(fs, rest);
    PurgedBoth(u.disk, fs, rest, o);
    MinusTwice(u.index, PathsOf(fs), PathsOf(rest));
    FreedLists(s.lists, u.lists, ds, i);
    SetTwice(s.dirs, p, ds[i..], ds[i + 1..]);
  }

  lemma SetTwice<K, V>(m: map<K, V>, k: K, v: V, w: V)
    ensures m[k := v][k := w] == m[k := w]
  {
  }

  lemma MinusTwice<K, V>(m: map<K, V>, a: set<K>, b: set<K>)
    ensures m - (a + b) == m - a - b
  {
  }

  lemma FreedLists(before: map<Instance, seq<File>>, now: map<Instance, seq<File>>, ds: seq<Instance>, i: nat)
    requires i < |ds| && now == map d | d in before && d !in ds[..i] :: before[d]
    ensures now[ds[i] := []] - {ds[i]} == map d | d in before && d !in ds[..i + 1] :: before[d]
  {
  }

  lemma FreedAtLast(s: State, u: State, p: Package, o: Settings)
    requires Shaped(s) && p in s.dirs && Freed(s, u, p, |s.dirs[p]|, o)
    ensures u == PurgePackage(s, p, o)
  {
    PurgePackageIs(s, p, o);
    hide PurgePackage, Shaped;
    var ds := s.dirs[p];
    assert ds[|ds|..] == [] && ds[..|ds|] == ds;
    PurgedNone(s, u.disk, o);
    assert u.index - {} == u.index;
  }

  lemma PurgePackageIs(s: State, p: Package, o: Settings)
    requires Shaped(s) && p in s.dirs
    ensures
      var fs := FilesIn(s, s.dirs[p]);
      PurgePackage(s, p, o) ==
        s.(index := s.index - PathsOf(fs), count := s.count - |fs|, disk := PurgedDisk(s.disk, fs, o),
           dirs := s.dirs[p := []], lists := map d | d in s.lists && d !in s.dirs[p] :: s.lists[d])
  {
    hide FilesIn, PurgeFiles, PurgedDisk, Shaped, PathsOf, Rooted, Homed;
    OwnDirs(s, p);
    var fs := FilesOf(s, p);
    PurgeFilesAre(s, fs, o);
    forall d | d in s.lists && d.pkg != p
      ensures PurgeFiles(s, fs, o).lists[d] == s.lists[d]
    {
      FilesOfIs(s, p);
      assert forall f | f in fs :: f.diri != d;
      PurgeSpares(s, fs, o, d);
    }
  }

  /** The list loses its first file, as the linked list does. */
  lemma FirstGone(s: State, fs: seq<File>, o: Settings)
    requires fs != [] && fs[0].diri in s.lists && s.lists[fs[0].diri] == fs && NoTwice(fs)
    ensures
      var t := PurgeFile(s, fs[0], o);
      && t.lists == s.lists[fs[0].diri := fs[1..]] && PurgeFiles(s, fs, o) == PurgeFiles(t, fs[1..], o)
  {
    assert fs[0] !in fs[1..];
    WithoutNone(fs[1..], fs[0]);
    assert Without(fs, fs[0]) == [] + Without(fs[1..], fs[0]) == fs[1..];
  }

  lemma {:induction false} WithoutNone(fs: seq<File>, f: File)
    requires f !in fs
    ensures Without(fs, f) == fs
  {
    if fs != [] { WithoutNone(fs[1..], f); }
  }

  /** A claim leaves alone the lists whose files are all still to come. */
  lemma MigrateStep(s: State, todo: seq<File>, o: Settings, pending: set<File>)
    requires todo != [] && Agree(s, pending) && Elements(todo) <= pending && NoTwice(todo)
    ensures todo[0].Where() in s.index ==> s.index[todo[0].Where()].diri in s.lists
    ensures NoTwice(todo[1..]) && Elements(todo[1..]) <= pending - {todo[0]}
    ensures
      var t := MigrateFile(s, todo[0], o);
      && Agree(t, pending - {todo[0]}) && t.lists.Keys == s.lists.Keys
      && forall d | d in s.lists && (forall g | g in s.lists[d] :: g in todo[1..]) :: t.lists[d] == s.lists[d]
  {
    Rest(todo, pending);
    MigrateOne(s, todo[0], o, pending);
    IndexedLists(s, pending);
    SettleIs(s, todo[0], o);
    hide Agree, Settle, NoTwice, Claim;
    forall d | d in s.lists && forall g | g in s.lists[d] :: g in todo[1..]
      ensures MigrateFile(s, todo[0], o).lists[d] == s.lists[d]
    {
      assert forall g | g in s.lists[d] :: g in Elements(todo[1..]) && g in pending;
      ClaimSpares(Settle(s, todo[0], o), todo[0], d);
    }
  }

  lemma ClaimSpares(s: State, f: File, d: Instance)
    requires d in s.lists && (f.Where() in s.index ==> s.index[f.Where()].diri != d)
    ensures d in Claim(s, f).lists && Claim(s, f).lists[d] == s.lists[d]
  {
  }

  lemma IndexedLists(s: State, pending: set<File>)
    requires Agree(s, pending)
    ensures forall k | k in s.index :: s.index[k].diri in s.lists && s.index[k] in s.lists[s.index[k].diri]
    ensures forall k | k in s.index :: s.index[k] !in pending
  {
  }

  lemma RootsIn(s: State, p: Package)
    requires Shaped(s) && p in s.dirs
    ensures forall d | d in s.dirs[p] :: d in s.lists
  {
  }

  lemma FilesInCons(s: State, ds: seq<Instance>, i: nat)
    requires i < |ds| && ds[i] in s.lists
    ensures FilesIn(s, ds[i..]) == s.lists[ds[i]] + FilesIn(s, ds[i + 1..])
  {
  }

  lemma NoTwiceTail<T>(a: seq<T>, b: seq<T>)
    requires NoTwice(a + b)
    ensures NoTwice(b)
  {
    assert forall i | 0 <= i < |b| :: b[i] == (a + b)[|a| + i];
  }

  lemma MigrateNone(s: State, o: Settings)
    ensures MigrateFiles(s, [], o) == s
  {
  }

  lemma FilesInNone(s: State)
    ensures FilesIn(s, []) == []
  {
  }

  lemma {:induction false} FilesInHas(s: State, ds: seq<Instance>)
    ensures forall d, f | d in ds && d in s.lists && f in s.lists[d] :: f in FilesIn(s, ds)
    decreases ds
  {
    if ds != [] { FilesInHas(s, ds[1..]); }
  }
}
