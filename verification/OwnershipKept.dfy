/** Index and lists stay in one-to-one agreement through upgrades and removals. */
module OwnershipKept {
  import opened Wrappers
  import opened Ownership

  // ----- Lists -----

  lemma {:induction false} WithoutIs(fs: seq<File>, f: File)
    ensures forall g | g in Without(fs, f) :: g in fs && g != f
    ensures forall g | g in fs :: g == f || g in Without(fs, f)
    ensures NoTwice(fs) ==> NoTwice(Without(fs, f))
  {
    if fs != [] {
      WithoutIs(fs[1..], f);
      assert forall g | g in fs :: g == fs[0] || g in fs[1..];
      if NoTwice(fs) {
        assert NoTwice(fs[1..]) && fs[0] !in fs[1..];
        NoTwiceCons(if fs[0] == f then [] else [fs[0]], Without(fs[1..], f));
      }
    }
  }

  lemma NoTwiceCons<T>(a: seq<T>, b: seq<T>)
    requires NoTwice(a) && NoTwice(b) && forall x | x in a :: x !in b
    ensures NoTwice(a + b)
  {
    var s := a + b;
    forall i, j | 0 <= i < j < |s|
      ensures s[i] != s[j]
    {
      if i < |a| && j >= |a| { assert s[i] in a && s[j] == b[j - |a|] && s[j] in b; }
    }
  }

  lemma {:induction false} UnclaimedIs(fs: seq<File>, paths: set<Path>)
    ensures forall g | g in Unclaimed(fs, paths) :: g in fs && g.Where() !in paths
    ensures forall g | g in fs && g.Where() !in paths :: g in Unclaimed(fs, paths)
    ensures (forall g | g in fs :: g.Where() !in paths) ==> Unclaimed(fs, paths) == fs
  {
    if fs != [] {
      UnclaimedIs(fs[1..], paths);
      assert forall g | g in fs :: g == fs[0] || g in fs[1..];
    }
  }

  lemma {:induction false} UnclaimedTwice(fs: seq<File>, a: set<Path>, b: set<Path>)
    ensures Unclaimed(Unclaimed(fs, a), b) == Unclaimed(fs, a + b)
  {
    if fs != [] {
      UnclaimedTwice(fs[1..], a, b);
      if fs[0].Where() in a {
        assert Unclaimed(fs, a) == Unclaimed(fs[1..], a);
      } else {
        assert Unclaimed(fs, a) == [fs[0]] + Unclaimed(fs[1..], a);
        assert ([fs[0]] + Unclaimed(fs[1..], a))[1..] == Unclaimed(fs[1..], a);
      }
    }
  }

  /** Removing the one file at a path is removing what is at that path. */
  lemma {:induction false} WithoutIsUnclaimed(fs: seq<File>, f: File)
    requires forall g | g in fs && g.Where() == f.Where() :: g == f
    ensures Without(fs, f) == Unclaimed(fs, {f.Where()})
  {
    if fs != [] {
      assert fs[0] in fs && forall g | g in fs[1..] :: g in fs;
      WithoutIsUnclaimed(fs[1..], f);
    }
  }

  // ----- Claiming -----

  lemma ClaimKeepsShape(s: State, f: File)
    requires Shaped(s)
    ensures Shaped(Claim(s, f)) && Claim(s, f).dirs == s.dirs && Claim(s, f).lists.Keys == s.lists.Keys
  {
    hide Rooted, Without;
    var k := f.Where();
    if k in s.index && s.index[k] != f && s.index[k].diri in s.lists {
      var d := s.index[k].diri;
      WithoutIs(s.lists[d], s.index[k]);
      assert Homed(d, s.lists[d]);
      assert s.lists[d := Without(s.lists[d], s.index[k])].Keys == s.lists.Keys;
    }
    forall d | d in s.lists
      ensures Homed(d, Claim(s, f).lists[d])
    {
      assert Homed(d, s.lists[d]);
      if k in s.index && s.index[k].diri == d {
        WithoutIs(s.lists[d], s.index[k]);
        assert Homed(d, Without(s.lists[d], s.index[k]));
        assert Claim(s, f).lists[d] == s.lists[d] || Claim(s, f).lists[d] == Without(s.lists[d], s.index[k]);
      } else {
        assert Claim(s, f).lists[d] == s.lists[d];
      }
    }
  }

  lemma SizeWith<K, V>(m: map<K, V>, k: K, v: V)
    ensures |m[k := v]| == |m| + if k in m then 0 else 1
  {
  }

  lemma ClaimIndex(s: State, f: File, pending: set<File>)
    requires Agree(s, pending) && f in pending
    ensures Claim(s, f).index == s.index[f.Where() := f] && Claim(s, f).count == |Claim(s, f).index|
  {
    hide Rooted, Without, Homed;
    SizeWith(s.index, f.Where(), f);
  }

  lemma ClaimLists(s: State, f: File, pending: set<File>, g: File)
    requires Agree(s, pending) && f in pending
    ensures Listed(Claim(s, f).lists, g) <==> Listed(s.lists, g) && !(f.Where() in s.index && s.index[f.Where()] == g)
  {
    hide Rooted, Without, NoTwice;
    var k := f.Where();
    if k in s.index { WithoutIs(s.lists[s.index[k].diri], s.index[k]); }
  }

  lemma HomeOf(s: State, d: Instance, f: File)
    requires Shaped(s) && d in s.lists && f in s.lists[d]
    ensures f.diri == d && Listed(s.lists, f)
  {
  }

  /** A pending file becomes indexed, and no other listed file is affected. */
  lemma ClaimKeeps(s: State, f: File, pending: set<File>)
    requires Agree(s, pending) && f in pending
    ensures Agree(Claim(s, f), pending - {f}) && Claim(s, f).index == s.index[f.Where() := f]
  {
    hide Rooted, Homed, Claim, Without;
    ClaimKeepsShape(s, f);
    ClaimIndex(s, f, pending);
    var t := Claim(s, f);
    forall d, g | d in t.lists && g in t.lists[d]
      ensures g in pending - {f} || Indexed(t.index, g)
    {
      HomeOf(t, d, g);
      ClaimLists(s, f, pending, g);
    }
    forall k | k in t.index
      ensures t.index[k].Where() == k && Listed(t.lists, t.index[k])
    {
      ClaimLists(s, f, pending, t.index[k]);
    }
    forall g | g in pending - {f}
      ensures Listed(t.lists, g) && !Indexed(t.index, g)
    {
      ClaimLists(s, f, pending, g);
    }
  }

  /** A list without pending files loses what was at the path. */
  lemma ClaimTakes(s: State, f: File, pending: set<File>, d: Instance)
    requires Agree(s, pending) && f in pending && d in s.lists && forall g | g in s.lists[d] :: g !in pending
    ensures Claim(s, f).lists[d] == Unclaimed(s.lists[d], {f.Where()})
  {
    hide Rooted, Without, NoTwice, Unclaimed;
    var k := f.Where();
    assert Homed(d, s.lists[d]);
    forall g | g in s.lists[d]
      ensures Indexed(s.index, g)
    {
      assert Listed(s.lists, g);
    }
    UnclaimedIs(s.lists[d], {k});
    if k in s.index && s.index[k].diri == d {
      WithoutIsUnclaimed(s.lists[d], s.index[k]);
    }
  }

  /** What is on disk has no part in it. */
  lemma SettleKeeps(s: State, f: File, o: Settings, pending: set<File>)
    requires Agree(s, pending)
    ensures Agree(Settle(s, f, o), pending)
  {
    hide Settle;
    SettleIs(s, f, o);
  }

  lemma SettleIs(s: State, f: File, o: Settings)
    ensures
      var t := Settle(s, f, o);
      t.index == s.index && t.lists == s.lists && t.dirs == s.dirs && t.count == s.count
  {
    hide FromOverlay, LocallyChanged, Matches;
  }

  // ----- Migrating -----

  predicate Untouched(s: State, d: Instance, pending: set<File>)
    requires d in s.lists
  {
    forall g | g in s.lists[d] :: g !in pending
  }

  /** Each path changes hands once, to one of the files; everybody else keeps the rest. */
  predicate Taken(s: State, t: State, fs: seq<File>) {
    && t.dirs == s.dirs && t.lists.Keys == s.lists.Keys && t.index.Keys == s.index.Keys + PathsOf(fs)
    && (forall k | k in PathsOf(fs) :: t.index[k] in fs)
    && (forall k | k in s.index && k !in PathsOf(fs) :: t.index[k] == s.index[k])
  }

  lemma TakenNone(s: State)
    ensures Taken(s, s, [])
  {
  }

  lemma TakenCons(s: State, mid: State, t: State, fs: seq<File>)
    requires fs != [] && Taken(mid, t, fs[1..])
    requires mid.dirs == s.dirs && mid.lists.Keys == s.lists.Keys && mid.index == s.index[fs[0].Where() := fs[0]]
    ensures Taken(s, t, fs)
  {
    assert forall f | f in fs :: f == fs[0] || f in fs[1..];
    assert fs[0] in fs && forall f | f in fs[1..] :: f in fs;
    assert PathsOf(fs) == {fs[0].Where()} + PathsOf(fs[1..]);
  }

  lemma {:induction false} MigrateKeeps(s: State, fs: seq<File>, o: Settings, pending: set<File>)
    requires Agree(s, pending) && NoTwice(fs) && Elements(fs) <= pending
    ensures
      var t := MigrateFiles(s, fs, o);
      Agree(t, pending - Elements(fs)) && Taken(s, t, fs)
    decreases fs
  {
    hide Agree, NoTwice, MigrateFile, Taken;
    if fs == [] {
      assert pending - Elements(fs) == pending;
      TakenNone(s);
    } else {
      Rest(fs, pending);
      MigrateOne(s, fs[0], o, pending);
      var t := MigrateFile(s, fs[0], o);
      MigrateKeeps(t, fs[1..], o, pending - {fs[0]});
      assert pending - {fs[0]} - Elements(fs[1..]) == pending - Elements(fs);
      TakenCons(s, t, MigrateFiles(s, fs, o), fs);
    }
  }

  lemma Rest(fs: seq<File>, all: set<File>)
    requires fs != [] && NoTwice(fs) && Elements(fs) <= all
    ensures NoTwice(fs[1..]) && fs[0] in all && fs[0] !in Elements(fs[1..])
    ensures Elements(fs[1..]) <= all - {fs[0]} && Elements(fs) == {fs[0]} + Elements(fs[1..])
    ensures PathsOf(fs) == {fs[0].Where()} + PathsOf(fs[1..])
  {
  }

  lemma MigrateOne(s: State, f: File, o: Settings, pending: set<File>)
    requires Agree(s, pending) && f in pending
    ensures
      var t := MigrateFile(s, f, o);
      && Agree(t, pending - {f}) && t.index == s.index[f.Where() := f]
      && t.dirs == s.dirs && t.lists.Keys == s.lists.Keys
  {
    hide Agree, Claim, Settle;
    SettleIs(s, f, o);
    SettleKeeps(s, f, o, pending);
    AgreeIsShaped(Settle(s, f, o), pending);
    ClaimKeeps(Settle(s, f, o), f, pending);
    ClaimKeepsShape(Settle(s, f, o), f);
  }

  /** Third packages lose the paths that are claimed, and nothing else. */
  lemma {:induction false} MigrateTakes(s: State, fs: seq<File>, o: Settings, pending: set<File>, d: Instance)
    requires Agree(s, pending) && NoTwice(fs) && Elements(fs) <= pending && d in s.lists && Untouched(s, d, pending)
    ensures
      var t := MigrateFiles(s, fs, o);
      d in t.lists && t.lists[d] == Unclaimed(s.lists[d], PathsOf(fs))
    decreases fs
  {
    hide Agree, Claim, Settle, NoTwice;
    if fs == [] {
      UnclaimedIs(s.lists[d], {});
      assert PathsOf(fs) == {};
    } else {
      var f, t := fs[0], MigrateFile(s, fs[0], o);
      Rest(fs, pending);
      MigrateOne(s, f, o, pending);
      SettleTakes(s, f, o, pending, d);
      UnclaimedIs(s.lists[d], {f.Where()});
      MigrateTakes(t, fs[1..], o, pending - {f}, d);
      UnclaimedTwice(s.lists[d], {f.Where()}, PathsOf(fs[1..]));
    }
  }

  lemma AgreeIsShaped(s: State, pending: set<File>)
    requires Agree(s, pending)
    ensures Shaped(s)
  {
  }

  lemma SettleTakes(s: State, f: File, o: Settings, pending: set<File>, d: Instance)
    requires Agree(s, pending) && f in pending && d in s.lists && Untouched(s, d, pending)
    ensures
      var t := MigrateFile(s, f, o);
      d in t.lists && t.lists[d] == Unclaimed(s.lists[d], {f.Where()})
  {
    assert Shaped(s);
    hide Agree, Claim, Settle, Shaped;
    SettleIs(s, f, o);
    SettleKeeps(s, f, o, pending);
    AgreeIsShaped(Settle(s, f, o), pending);
    ClaimKeepsShape(Settle(s, f, o), f);
    ClaimTakes(Settle(s, f, o), f, pending, d);
  }

  // ----- Purging -----

  lemma PurgeKeepsShape(s: State, f: File, o: Settings)
    requires Shaped(s)
    ensures Shaped(PurgeFile(s, f, o))
    ensures
      var t := PurgeFile(s, f, o);
      && t.dirs == s.dirs && t.lists.Keys == s.lists.Keys && t.index == s.index - {f.Where()} && t.count == s.count - 1
      && forall d | d in s.lists :: t.lists[d] == if d == f.diri then Without(s.lists[d], f) else s.lists[d]
  {
    hide Rooted, Without, Unlinks;
    var t := PurgeFile(s, f, o);
    assert t.lists.Keys == s.lists.Keys;
    forall d | d in s.lists
      ensures Homed(d, t.lists[d])
    {
      assert Homed(d, s.lists[d]);
      if d == f.diri {
        WithoutIs(s.lists[d], f);
        assert Homed(d, Without(s.lists[d], f)) && t.lists[d] == Without(s.lists[d], f);
      } else {
        assert t.lists[d] == s.lists[d];
      }
    }
  }

  lemma SizeWithout<K, V>(m: map<K, V>, k: K)
    requires k in m
    ensures |m - {k}| == |m| - 1
  {
  }

  lemma PurgeListed(s: State, f: File, o: Settings, g: File)
    requires Shaped(s) && Listed(s.lists, f)
    ensures Listed(PurgeFile(s, f, o).lists, g) <==> Listed(s.lists, g) && g != f
  {
    hide Shaped, PurgeFile, Without;
    PurgeKeepsShape(s, f, o);
    WithoutIs(s.lists[f.diri], f);
  }

  /** What is left of a list when the files that are gone go. */
  predicate Minus(left: seq<File>, all: seq<File>, gone: seq<File>) {
    (forall f | f in left :: f in all && f !in gone) && forall f | f in all :: f in left || f in gone
  }

  lemma PurgeLists(s: State, f: File, o: Settings)
    requires Shaped(s) && Listed(s.lists, f)
    ensures forall d | d in s.lists :: Minus(PurgeFile(s, f, o).lists[d], s.lists[d], [f])
  {
    hide Rooted, PurgeFile, Without, NoTwice;
    PurgeKeepsShape(s, f, o);
    WithoutIs(s.lists[f.diri], f);
    forall d | d in s.lists
      ensures Minus(PurgeFile(s, f, o).lists[d], s.lists[d], [f])
    {
      assert Homed(d, s.lists[d]);
    }
  }

  lemma UnlinkOne(
    index: map<Path, File>, before: map<Instance, seq<File>>, after: map<Instance, seq<File>>, f: File)
    requires Linked(index, before, {}) && Listed(before, f)
    requires after.Keys == before.Keys
    requires forall d | d in before :: Minus(after[d], before[d], [f])
    requires forall d, g | d in before && g in before[d] :: g.diri == d
    ensures Indexed(index, f) && Linked(index - {f.Where()}, after, {})
  {
  }

  lemma PurgeOne(s: State, f: File, o: Settings)
    requires Agree(s, {}) && Listed(s.lists, f)
    ensures Agree(PurgeFile(s, f, o), {}) && Indexed(s.index, f)
  {
    AgreeIsShaped(s, {});
    hide Shaped, Without, PurgeFile, Linked, Listed;
    PurgeKeepsShape(s, f, o);
    var t := PurgeFile(s, f, o);
    PurgeLists(s, f, o);
    forall d, g | d in s.lists && g in s.lists[d]
      ensures g.diri == d
    {
      HomeOf(s, d, g);
    }
    UnlinkOne(s.index, s.lists, t.lists, f);
    SizeWithout(s.index, f.Where());
  }

  lemma MinusNone()
    ensures forall all: seq<File> :: Minus(all, all, [])
  {
  }

  lemma MinusCons(left: seq<File>, mid: seq<File>, all: seq<File>, fs: seq<File>)
    requires fs != [] && Minus(left, mid, fs[1..]) && Minus(mid, all, [fs[0]])
    ensures Minus(left, all, fs)
  {
  }

  /** The paths leave the index, and the disk but for what is protected; no other path does. */
  lemma {:induction false} PurgeKeeps(s: State, fs: seq<File>, o: Settings)
    requires Agree(s, {}) && NoTwice(fs) && forall f | f in fs :: Listed(s.lists, f)
    ensures
      var t := PurgeFiles(s, fs, o);
      && Agree(t, {}) && t.dirs == s.dirs && t.lists.Keys == s.lists.Keys
      && t.index == s.index - PathsOf(fs) && PathsOf(fs) <= s.index.Keys
      && forall d | d in s.lists :: Minus(t.lists[d], s.lists[d], fs)
    decreases fs
  {
    hide Agree, PurgeFile, NoTwice, Listed, Minus;
    if fs == [] {
      assert PathsOf(fs) == {} && s.index - {} == s.index;
      assert forall d | d in s.lists :: Minus(s.lists[d], s.lists[d], []) by { MinusNone(); }
    } else {
      var f := fs[0];
      Rest(fs, Elements(fs));
      PurgeOne(s, f, o);
      AgreeIsShaped(s, {});
      PurgeKeepsShape(s, f, o);
      forall g | g in fs[1..]
        ensures Listed(PurgeFile(s, f, o).lists, g)
      {
        assert g in Elements(fs[1..]);
        PurgeListed(s, f, o, g);
      }
      var t := PurgeFile(s, f, o);
      PurgeLists(s, f, o);
      PurgeKeeps(t, fs[1..], o);
      forall d | d in s.lists
        ensures Minus(PurgeFiles(s, fs, o).lists[d], s.lists[d], fs)
      {
        MinusCons(PurgeFiles(t, fs[1..], o).lists[d], t.lists[d], s.lists[d], fs);
      }
      assert s.index - {f.Where()} - PathsOf(fs[1..]) == s.index - PathsOf(fs);
    }
  }

  /** Directories without any of the files keep their lists. */
  lemma {:induction false} PurgeSpares(s: State, fs: seq<File>, o: Settings, d: Instance)
    requires Shaped(s) && d in s.lists && forall f | f in fs :: f.diri != d
    ensures
      var t := PurgeFiles(s, fs, o);
      d in t.lists && t.lists[d] == s.lists[d]
    decreases fs
  {
    hide Shaped, PurgeFile;
    if fs != [] {
      assert fs[0] in fs && forall f | f in fs[1..] :: f in fs;
      PurgeKeepsShape(s, fs[0], o);
      PurgeSpares(PurgeFile(s, fs[0], o), fs[1..], o, d);
    }
  }

  // ----- The files of a package -----

  lemma {:induction false} FilesInIs(s: State, p: Package, ds: seq<Instance>)
    requires Shaped(s) && NoTwice(ds) && forall i | 0 <= i < |ds| :: ds[i] in s.lists
    ensures NoTwice(FilesIn(s, ds))
    ensures forall f | f in FilesIn(s, ds) :: f.diri in ds && Listed(s.lists, f)
    ensures forall d, f | d in ds && f in s.lists[d] :: f in FilesIn(s, ds)
    decreases ds
  {
    if ds != [] {
      var d, rest := ds[0], ds[1..];
      assert NoTwice(rest) && d !in rest;
      FilesInIs(s, p, rest);
      assert Homed(d, s.lists[d]);
      hide Shaped;
      NoTwiceCons(s.lists[d], FilesIn(s, rest));
      assert forall x :: x in ds <==> x == d || x in rest;
    }
  }

  lemma FilesOfIs(s: State, p: Package)
    requires Shaped(s) && p in s.dirs
    ensures NoTwice(FilesOf(s, p))
    ensures forall f | f in FilesOf(s, p) :: f.diri.pkg == p && Listed(s.lists, f)
    ensures forall d, f | d in s.lists && d.pkg == p && f in s.lists[d] :: f in FilesOf(s, p)
  {
    hide Homed;
    FilesInIs(s, p, s.dirs[p]);
  }
}
