/** Unpacking an archive into the database, and the whole of apk_db_install_pkg. */
module OwnershipInstall {
  import opened Wrappers
  import opened Codec
  import opened Ownership
  import opened OwnershipKept
  import opened OwnershipTheorems
  import opened OwnershipDisk
  import opened OwnershipOutcome
  import opened OwnershipState

  datatype Entry = DirEntry(name: string) | FileEntry(name: string, sum: Sum, content: Content)

  /** The names that the package replaces, APK_FORCE, and which directories are protected. */
  datatype Policy = Policy(replaced: set<string>, force: bool, guarded: string -> bool)

  // ----- What an archive asks for -----

  /** The position of the last slash, -1 when there is none. */
  function LastSlash(s: string): (i: int)
    ensures -1 <= i < |s|
  {
    if s == "" then -1 else if s[|s| - 1] == '/' then |s| - 1 else LastSlash(s[..|s| - 1])
  }

  function Strip(name: string): string { if name != "" && name[|name| - 1] == '/' then name[..|name| - 1] else name }

  const KEEP := ".keep_"
  const OLD_META := "var/db/apk/"

  /** Package information and scripts, of either format, are not installed. */
  predicate IsMeta(name: string) {
    (name != "" && name[0] == '.') || (|name| >= |OLD_META| && name[..|OLD_META|] == OLD_META)
  }

  predicate MakesDir(e: Entry) { e.DirEntry? && !IsMeta(e.name) }

  /** Where a file goes; None if it is skipped. */
  function Target(e: Entry): Option<Path> {
    if e.DirEntry? || IsMeta(e.name) then None
    else
      var i := LastSlash(e.name);
      if i < 0 then None
      else
        var base := e.name[i + 1..];
        if |base| > 6 && base[..6] == KEEP then None else Some(Path(e.name[..i], base))
  }

  function EntryFiles(es: seq<Entry>): set<Arrival> {
    set i | 0 <= i < |es| && es[i].FileEntry? && Target(es[i]).Some? :: Arrival(Target(es[i]).value, es[i].sum)
  }

  function ArrivalOf(e: Entry): set<Arrival> {
    if e.FileEntry? && Target(e).Some? then {Arrival(Target(e).value, e.sum)} else {}
  }

  function Extracted(staged: map<Path, Content>, es: seq<Entry>): map<Path, Content> {
    if es == [] then staged
    else
      var n := |es| - 1;
      var before := Extracted(staged, es[..n]);
      if Target(es[n]).Some? then before[Target(es[n]).value := es[n].content] else before
  }

  function DirNames(es: seq<Entry>): set<string> { set i | 0 <= i < |es| && MakesDir(es[i]) :: Strip(es[i].name) }

  /** A path may be taken from nobody, the overlay, another version of the package, or one that it
      replaces. */
  predicate May(index: map<Path, File>, k: Path, pkg: Package, policy: Policy) {
    k in index ==>
      var owner := index[k].diri.pkg;
      owner.overlay || owner.name == pkg.name || owner.name in policy.replaced || policy.force
  }

  predicate Allowed(seen: seq<Entry>, e: Entry, index: map<Path, File>, pkg: Package, policy: Policy) {
    Target(e).Some? ==> Target(e).value.dir in DirNames(seen) && May(index, Target(e).value, pkg, policy)
  }

  predicate Accepted(es: seq<Entry>, index: map<Path, File>, pkg: Package, policy: Policy) {
    forall i | 0 <= i < |es| :: Allowed(es[..i], es[i], index, pkg, policy)
  }

  lemma AcceptedMore(es: seq<Entry>, i: nat, index: map<Path, File>, pkg: Package, policy: Policy)
    requires i < |es| && Accepted(es[..i], index, pkg, policy) && Allowed(es[..i], es[i], index, pkg, policy)
    ensures Accepted(es[..i + 1], index, pkg, policy)
  {
    hide Allowed;
    var more := es[..i + 1];
    forall j | 0 <= j < |more|
      ensures Allowed(more[..j], more[j], index, pkg, policy)
    {
      assert more[..j] == es[..j];
      if j < i { assert es[..i][..j] == es[..j] && es[..i][j] == es[j]; }
    }
  }

  /** `dir` is the current directory, `tail` the one whose list new files are appended to.  A file
      outside the current directory moves `tail`, and a later one inside does not move it back. */
  datatype Cursor = Cursor(dir: Option<string>, tail: Option<string>, stray: bool)

  function Step(c: Cursor, e: Entry): Cursor {
    if MakesDir(e) then Cursor(Some(Strip(e.name)), Some(Strip(e.name)), c.stray)
    else match Target(e)
      case None => c
      case Some(k) =>
        if c.dir == Some(k.dir) then c.(stray := c.stray || c.tail != c.dir) else c.(tail := Some(k.dir))
  }

  function Walk(es: seq<Entry>): Cursor {
    if es == [] then Cursor(None, None, false) else Step(Walk(es[..|es| - 1]), es[|es| - 1])
  }

  /** No directory is returned to after a file of another one. */
  predicate Grouped(es: seq<Entry>) { !Walk(es).stray }

  /** The code takes such an archive, whatever the flags: nothing of it is anybody's yet. */
  lemma ReturningStrays(sum: Sum, content: Content, pkg: Package, policy: Policy)
    ensures
      var es := [DirEntry("a"), DirEntry("b"), FileEntry("a/x", sum, content), FileEntry("b/y", sum, content)];
      !Grouped(es) && Accepted(es, map[], pkg, policy)
  {
    var es := [DirEntry("a"), DirEntry("b"), FileEntry("a/x", sum, content), FileEntry("b/y", sum, content)];
    assert LastSlash("a/x") == 1 by { assert "a/x"[..2] == "a/"; }
    assert LastSlash("b/y") == 1 by { assert "b/y"[..2] == "b/"; }
    assert "a/x"[2..] == "x" && "a/x"[..1] == "a" && "b/y"[2..] == "y" && "b/y"[..1] == "b";
    assert Target(es[2]) == Some(Path("a", "x")) && Target(es[3]) == Some(Path("b", "y"));
    assert es[..3][..2] == es[..2] && es[..2][..1] == es[..1] && es[..1][..0] == [];
    assert Walk(es[..1]) == Cursor(Some("a"), Some("a"), false);
    assert Walk(es[..2]) == Cursor(Some("b"), Some("b"), false);
    assert Walk(es[..3]) == Cursor(Some("b"), Some("a"), false);
    assert !IsMeta("a") && !IsMeta("b") && !IsMeta("a/x") && !IsMeta("b/y");
    assert Strip("a") == "a" && Strip("b") == "b";
    assert es[..2][0] == DirEntry("a") && es[..3][1] == DirEntry("b");
    assert Allowed(es[..2], es[2], map[], pkg, policy) && Allowed(es[..3], es[3], map[], pkg, policy);
  }

  // ----- Adding to the lists -----

  function WithDir(s: State, p: Package, d: Instance): State
    requires p in s.dirs
  {
    s.(dirs := s.dirs[p := s.dirs[p] + [d]], lists := s.lists[d := []])
  }

  lemma AddDirKeeps(s: State, p: Package, d: Instance, pending: set<File>)
    requires Agree(s, pending) && p in s.dirs && d !in s.lists && d.pkg == p
    ensures Agree(WithDir(s, p, d), pending)
  {
    ShapedWithDir(s, p, d);
    hide Shaped, Linked;
    LinkedWithDir(s.index, s.lists, d, pending);
  }

  lemma ShapedWithDir(s: State, p: Package, d: Instance)
    requires Shaped(s) && p in s.dirs && d !in s.lists && d.pkg == p
    ensures Shaped(WithDir(s, p, d))
  {
    hide Homed, Rooted;
    RootedMore(s.dirs, s.lists.Keys, p, d);
    assert s.lists[d := []].Keys == s.lists.Keys + {d};
    NothingHomed(d);
  }

  lemma RootedMore(dirs: map<Package, seq<Instance>>, all: set<Instance>, p: Package, d: Instance)
    requires Rooted(dirs, all) && p in dirs && d !in all && d.pkg == p
    ensures Rooted(dirs[p := dirs[p] + [d]], all + {d})
  {
  }

  lemma LinkedWithDir(index: map<Path, File>, lists: map<Instance, seq<File>>, d: Instance, pending: set<File>)
    requires Linked(index, lists, pending) && d !in lists
    ensures Linked(index, lists[d := []], pending)
  {
  }

  lemma NothingHomed(d: Instance)
    ensures Homed(d, [])
  {
  }

  function WithFile(s: State, d: Instance, f: File, staged: map<Path, Content>): State
    requires d in s.lists
  {
    s.(lists := s.lists[d := s.lists[d] + [f]], staged := staged)
  }

  lemma AddFileKeeps(s: State, f: File, staged: map<Path, Content>, pending: set<File>)
    requires Agree(s, pending) && f.diri in s.lists && f !in s.lists[f.diri] && !Indexed(s.index, f)
    ensures Agree(WithFile(s, f.diri, f, staged), pending + {f})
  {
    hide Homed, Rooted, Linked;
    var t := WithFile(s, f.diri, f, staged);
    assert t.lists.Keys == s.lists.Keys;
    HomedMore(s.lists[f.diri], f);
    LinkedWithFile(s.index, s.lists, f, pending);
  }

  lemma HomedMore(fs: seq<File>, f: File)
    requires Homed(f.diri, fs) && f !in fs
    ensures Homed(f.diri, fs + [f])
  {
  }

  lemma LinkedWithFile(index: map<Path, File>, lists: map<Instance, seq<File>>, f: File, pending: set<File>)
    requires Linked(index, lists, pending) && f.diri in lists && !Indexed(index, f)
    ensures Linked(index, lists[f.diri := lists[f.diri] + [f]], pending + {f})
  {
  }

  // ----- Unpacking -----

  function NameOf(d: Option<Instance>): Option<string> { if d.Some? then Some(d.value.dir) else None }

  /** Some file is in the list of another directory than its own. */
  predicate Strayed(s: State, pkg: Package)
    requires pkg in s.dirs
  {
    exists d, f | d in s.dirs[pkg] && d in s.lists && f in s.lists[d] :: f.diri != d
  }

  /** Only the package's own lists have grown. */
  predicate Grown(s0: State, s: State, pkg: Package) {
    && pkg in s.dirs && s.index == s0.index && s.count == s0.count && s.disk == s0.disk
    && s.dirs == s0.dirs[pkg := s.dirs[pkg]]
    && (forall d | d in s0.lists :: d in s.lists && s.lists[d] == s0.lists[d])
    && (forall d | d in s.lists :: d in s0.lists || d in s.dirs[pkg])
    && (forall d | d in s.dirs[pkg] :: d in s.lists && d !in s0.lists) && NoTwice(s.dirs[pkg])
  }

  predicate Owned(s: State, pkg: Package, pending: set<File>)
    requires pkg in s.dirs
  {
    && (forall f | f in pending :: f.diri in s.dirs[pkg])
    && (forall d, f | d in s.dirs[pkg] && d in s.lists && f in s.lists[d] :: f in pending)
  }

  /** The cursors are directories of the package; two of the same name are the same. */
  predicate Cursors(s: State, pkg: Package, diri: Option<Instance>, tail: Option<Instance>, c: Cursor)
    requires pkg in s.dirs
  {
    && NameOf(diri) == c.dir && NameOf(tail) == c.tail
    && (diri.Some? ==> diri.value in s.dirs[pkg]) && (tail.Some? ==> tail.value in s.dirs[pkg])
    && (c.dir == c.tail ==> diri == tail) && (diri.Some? ==> tail.Some?)
  }

  ghost predicate Unpacking(
    s0: State, s: State, pkg: Package, es: seq<Entry>, diri: Option<Instance>, tail: Option<Instance>, pending: set<File>)
  {
    && Grown(s0, s, pkg) && Owned(s, pkg, pending) && Cursors(s, pkg, diri, tail, Walk(es))
    && DirNames(es) == (set d | d in s.dirs[pkg] :: d.dir)
    && s.staged == Extracted(s0.staged, es)
    && EntryFiles(es) == (set f | f in pending :: Arrival(f.Where(), f.sum))
    && if Walk(es).stray then Strayed(s, pkg) else Agree(s, pending)
  }

  lemma EntriesMore(es: seq<Entry>, e: Entry, staged: map<Path, Content>)
    ensures Walk(es + [e]) == Step(Walk(es), e)
    ensures DirNames(es + [e]) == DirNames(es) + if MakesDir(e) then {Strip(e.name)} else {}
    ensures EntryFiles(es + [e]) == EntryFiles(es) + ArrivalOf(e)
    ensures Extracted(staged, es + [e]) ==
            if Target(e).Some? then Extracted(staged, es)[Target(e).value := e.content] else Extracted(staged, es)
  {
    hide Target, Strip, MakesDir;
    var more := es + [e];
    assert more[..|more| - 1] == es && more[|es|] == e;
    assert forall i | 0 <= i < |es| :: more[i] == es[i];
  }

  lemma UnpackDir(
    s0: State, s: State, pkg: Package, es: seq<Entry>, diri: Option<Instance>, tail: Option<Instance>,
    pending: set<File>, e: Entry, d: Instance)
    requires Unpacking(s0, s, pkg, es, diri, tail, pending) && MakesDir(e)
    requires d !in s.lists && d.pkg == pkg && d.dir == Strip(e.name)
    ensures Unpacking(s0, WithDir(s, pkg, d), pkg, es + [e], Some(d), Some(d), pending)
  {
    hide Agree, Walk, Extracted, EntryFiles, DirNames, Strip, IsMeta, Grown, Owned, Strayed;
    EntriesMore(es, e, s0.staged);
    GrownWithDir(s0, s, pkg, d, pending);
    if !Walk(es).stray { AddDirKeeps(s, pkg, d, pending); }
  }

  lemma GrownWithDir(s0: State, s: State, pkg: Package, d: Instance, pending: set<File>)
    requires Grown(s0, s, pkg) && Owned(s, pkg, pending) && d !in s.lists
    ensures Grown(s0, WithDir(s, pkg, d), pkg) && Owned(WithDir(s, pkg, d), pkg, pending)
    ensures pkg in s.dirs && (Strayed(s, pkg) ==> Strayed(WithDir(s, pkg, d), pkg))
  {
  }

  /** `d` is the file's directory, `at` the one whose list it gets into. */
  lemma UnpackFile(
    s0: State, s: State, pkg: Package, es: seq<Entry>, diri: Option<Instance>, tail: Option<Instance>,
    pending: set<File>, e: Entry, d: Instance, at: Instance, f: File)
    requires Unpacking(s0, s, pkg, es, diri, tail, pending) && Target(e).Some?
    requires d in s.dirs[pkg] && f.diri == d && f.Where() == Target(e).value && e.FileEntry? && f.sum == e.sum && f !in pending && !Indexed(s.index, f)
    requires if diri == Some(d) then tail == Some(at) else (diri.Some? ==> diri.value.dir != d.dir) && at == d
    ensures
      at in s.lists && Unpacking(
        s0, WithFile(s, at, f, s.staged[f.Where() := e.content]), pkg, es + [e], diri, Some(at), pending + {f})
  {
    hide Agree, Walk, Extracted, EntryFiles, DirNames, Grown, Owned, Strayed;
    EntriesMore(es, e, s0.staged);
    GrownWithFile(s0, s, pkg, at, f, s.staged[f.Where() := e.content], pending);
    if !Walk(es).stray && at == d { AddFileKeeps(s, f, s.staged[f.Where() := e.content], pending); }
  }

  lemma GrownWithFile(
    s0: State, s: State, pkg: Package, at: Instance, f: File, staged: map<Path, Content>, pending: set<File>)
    requires Grown(s0, s, pkg) && Owned(s, pkg, pending) && at in s.dirs[pkg] && f.diri in s.dirs[pkg]
    ensures at in s.lists
    ensures
      var t := WithFile(s, at, f, staged);
      && Grown(s0, t, pkg) && Owned(t, pkg, pending + {f}) && (Strayed(s, pkg) || at != f.diri ==> Strayed(t, pkg))
      && f.diri in s.lists && (f !in pending ==> f !in s.lists[f.diri])
  {
  }

  lemma RootedNothing(dirs: map<Package, seq<Instance>>, all: set<Instance>, pkg: Package)
    requires Rooted(dirs, all) && pkg !in dirs
    ensures Rooted(dirs[pkg := []], all)
  {
  }

  lemma UnpackNothing(s: State, pkg: Package)
    requires Agree(s, {}) && pkg !in s.dirs
    ensures Unpacking(s, s.(dirs := s.dirs[pkg := []]), pkg, [], None, None, {})
  {
    hide Homed, Linked, Rooted;
    var t := s.(dirs := s.dirs[pkg := []]);
    RootedNothing(s.dirs, s.lists.Keys, pkg);
    assert t.dirs[pkg := []] == t.dirs;
    assert DirNames([]) == {} && EntryFiles([]) == {};
  }

  lemma UnpackedIs(
    s0: State, s: State, pkg: Package, es: seq<Entry>, diri: Option<Instance>, tail: Option<Instance>, pending: set<File>)
    requires Unpacking(s0, s, pkg, es, diri, tail, pending)
    ensures Grouped(es) ==> Unpacked(s, pkg) && Arrivals(FilesOf(s, pkg)) == EntryFiles(es)
    ensures !Grouped(es) ==> !Shaped(s)
    ensures Grown(s0, s, pkg) && s.staged == Extracted(s0.staged, es)
  {
    hide EntryFiles, Extracted, DirNames, Walk;
    if Walk(es).stray {
      StrayedIs(s, pkg);
    } else {
      AgreeIsShaped(s, pending);
      FilesOfIs(s, pkg);
      AgreeListed(s, pending);
      hide Agree, FilesOf;
      forall f | f in pending
        ensures f in FilesOf(s, pkg)
      {
        OwnDirs(s, pkg);
      }
      forall f | f in FilesOf(s, pkg)
        ensures f in pending
      {
        OwnDirs(s, pkg);
        ListedIs(s.lists, f);
      }
      assert Elements(FilesOf(s, pkg)) == pending;
      assert Arrivals(FilesOf(s, pkg)) == set f | f in pending :: Arrival(f.Where(), f.sum);
    }
  }

  lemma StrayedIs(s: State, pkg: Package)
    requires pkg in s.dirs && Strayed(s, pkg)
    ensures !Shaped(s)
  {
  }

  lemma AgreeListed(s: State, pending: set<File>)
    requires Agree(s, pending)
    ensures forall f | f in pending :: f.diri in s.lists && f in s.lists[f.diri]
  {
  }

  lemma ListedIs(lists: map<Instance, seq<File>>, f: File)
    requires Listed(lists, f)
    ensures f.diri in lists && f in lists[f.diri]
  {
  }

  // ----- The code -----

  /** The first directory with the name. */
  predicate FirstOf(ds: seq<Instance>, dir: string, d: Instance) {
    exists i | 0 <= i < |ds| :: ds[i] == d && d.dir == dir && forall j | 0 <= j < i :: ds[j].dir != dir
  }

  /** find_diri: the current directory, or the first one of the package with the name. */
  method FindDir(ds: seq<Instance>, dir: string, diri: Option<Instance>, tail: Option<Instance>)
    returns (d: Option<Instance>, at: Option<Instance>)
    ensures d.Some? ==> d.value.dir == dir && (d == diri || FirstOf(ds, dir, d.value))
    ensures d.None? ==> (forall x | x in ds :: x.dir != dir) && (diri.Some? ==> diri.value.dir != dir)
    ensures d.Some? ==> if d == diri then at == tail else (diri.Some? ==> diri.value.dir != dir) && at == d
  {
    if diri.Some? && diri.value.dir == dir { return diri, tail; }
    for i := 0 to |ds|
      invariant forall j | 0 <= j < i :: ds[j].dir != dir
    {
      if ds[i].dir == dir { return Some(ds[i]), Some(ds[i]); }
    }
    return None, tail;
  }

  /** apk_db_install_archive_entry, on every entry in turn, up to the first that is refused. */
  method Unpack(db: Database, pkg: Package, es: seq<Entry>, policy: Policy) returns (ok: bool)
    requires Agree(db.Now(), {}) && pkg !in db.dirs
    modifies db
    ensures ok == Accepted(es, old(db.index), pkg, policy)
    ensures Grown(old(db.Now()), db.Now(), pkg)
    ensures ok ==> GuardedBy(db.dirs[pkg], policy)
    ensures ok ==> db.staged == Extracted(old(db.staged), es)
    ensures ok ==> if Grouped(es) then Unpacked(db.Now(), pkg) && Arrivals(FilesOf(db.Now(), pkg)) == EntryFiles(es)
                   else !Shaped(db.Now())
  {
    ghost var s0, pending := db.Now(), {};
    UnpackNothing(s0, pkg);
    hide Agree, Shaped, Unpacking, Grown, Extracted, EntryFiles, FilesOf, Walk, Allowed;
    db.dirs := db.dirs[pkg := []];
    var diri, tail := None, None;
    for i := 0 to |es|
      invariant Unpacking(s0, db.Now(), pkg, es[..i], diri, tail, pending)
      invariant Accepted(es[..i], s0.index, pkg, policy) && GuardedBy(db.dirs[pkg], policy)
    {
      ok, diri, tail, pending := UnpackEntry(db, s0, pkg, es, i, policy, diri, tail, pending);
      if !ok { return; }
      AcceptedMore(es, i, s0.index, pkg, policy);
    }
    assert es[..|es|] == es;
    UnpackedIs(s0, db.Now(), pkg, es, diri, tail, pending);
    return true;
  }

  /** The new directories are protected as their names are. */
  predicate GuardedBy(ds: seq<Instance>, policy: Policy) { forall d | d in ds :: d.guarded == policy.guarded(d.dir) }

  method UnpackEntry(
    db: Database, ghost s0: State, pkg: Package, es: seq<Entry>, i: nat, policy: Policy,
    diri: Option<Instance>, tail: Option<Instance>, ghost pending: set<File>)
    returns (ok: bool, diri': Option<Instance>, tail': Option<Instance>, ghost pending': set<File>)
    requires i < |es| && Unpacking(s0, db.Now(), pkg, es[..i], diri, tail, pending) && GuardedBy(db.dirs[pkg], policy)
    modifies db
    ensures ok == Allowed(es[..i], es[i], s0.index, pkg, policy)
    ensures if ok then Unpacking(s0, db.Now(), pkg, es[..i + 1], diri', tail', pending') && GuardedBy(db.dirs[pkg], policy)
            else Grown(s0, db.Now(), pkg)
  {
    hide Agree, Walk, Extracted, EntryFiles, Strayed, Step, IsMeta, Target, May;
    var e := es[i];
    ok, diri', tail', pending' := true, diri, tail, pending;
    assert es[..i + 1] == es[..i] + [e];
    var k := Target(e);
    if MakesDir(e) {
      DirsHaveNoTarget(e);
      diri' := UnpackDirEntry(db, s0, pkg, es[..i], policy, diri, tail, pending, e);
      return true, diri', diri', pending;
    }
    if k.None? {
      UnpackSkipped(s0, db.Now(), pkg, es[..i], diri, tail, pending, e);
      return;
    }
    var d, at := FindDir(db.dirs[pkg], k.value.dir, diri, tail);
    if d.None? || !May(db.index, k.value, pkg, policy) { return false, diri, tail, pending; }
    pending' := UnpackFileEntry(db, s0, pkg, es[..i], diri, tail, pending, e, d.value, at.value);
    return true, diri, at, pending';
  }

  lemma DirsHaveNoTarget(e: Entry)
    ensures MakesDir(e) ==> Target(e).None?
  {
  }

  method UnpackFileEntry(
    db: Database, ghost s0: State, pkg: Package, ghost seen: seq<Entry>, ghost diri: Option<Instance>,
    ghost tail: Option<Instance>, ghost pending: set<File>, e: Entry, d: Instance, at: Instance)
    returns (ghost pending': set<File>)
    requires Unpacking(s0, db.Now(), pkg, seen, diri, tail, pending) && Target(e).Some? && pkg in db.dirs
    requires d in db.dirs[pkg] && d.dir == Target(e).value.dir
    requires if diri == Some(d) then tail == Some(at) else (diri.Some? ==> diri.value.dir != d.dir) && at == d
    modifies db
    ensures Unpacking(s0, db.Now(), pkg, seen + [e], diri, Some(at), pending') && db.dirs == old(db.dirs)
  {
    hide Agree, Walk, Extracted, EntryFiles, Strayed, Step, IsMeta, Target;
    TargetsAreFiles(e);
    var f := new File(d, Target(e).value.name, e.sum);
    UnpackFile(s0, db.Now(), pkg, seen, diri, tail, pending, e, d, at, f);
    hide Unpacking;
    db.lists := db.lists[at := db.lists[at] + [f]];
    db.staged := db.staged[f.Where() := e.content];
    return pending + {f};
  }

  lemma TargetsAreFiles(e: Entry)
    ensures Target(e).Some? ==> e.FileEntry?
  {
  }

  method UnpackDirEntry(
    db: Database, ghost s0: State, pkg: Package, ghost seen: seq<Entry>, policy: Policy,
    ghost diri: Option<Instance>, ghost tail: Option<Instance>, ghost pending: set<File>, e: Entry)
    returns (d: Option<Instance>)
    requires MakesDir(e) && Unpacking(s0, db.Now(), pkg, seen, diri, tail, pending) && GuardedBy(db.dirs[pkg], policy)
    modifies db
    ensures Unpacking(s0, db.Now(), pkg, seen + [e], d, d, pending) && GuardedBy(db.dirs[pkg], policy)
  {
    var x := new Instance(pkg, Strip(e.name), policy.guarded(Strip(e.name)));
    UnpackDir(s0, db.Now(), pkg, seen, diri, tail, pending, e, x);
    hide Unpacking;
    db.dirs, db.lists := db.dirs[pkg := db.dirs[pkg] + [x]], db.lists[x := []];
    d := Some(x);
  }

  lemma UnpackSkipped(
    s0: State, s: State, pkg: Package, es: seq<Entry>, diri: Option<Instance>, tail: Option<Instance>,
    pending: set<File>, e: Entry)
    requires Unpacking(s0, s, pkg, es, diri, tail, pending) && !MakesDir(e) && Target(e).None?
    ensures Unpacking(s0, s, pkg, es + [e], diri, tail, pending)
  {
    hide Agree, Walk, Extracted, EntryFiles, DirNames;
    EntriesMore(es, e, s0.staged);
  }

  // ----- apk_db_install_pkg -----

  /** apk_db_purge_pkg on the files NAME.apk-new of a package that could not be installed: they are
      removed as installed files would be. */
  method Discard(db: Database, ghost s0: State, pkg: Package, o: Settings)
    requires Grown(s0, db.Now(), pkg) && pkg !in s0.dirs
    modifies db
    ensures db.Now() == s0.(staged := PurgedDisk(old(db.staged), FilesOf(old(db.Now()), pkg), o))
  {
    hide Grown, PurgedDisk, FilesIn, Dropped;
    ghost var s := db.Now();
    GrownBack(s0, s, pkg);
    var ds := db.dirs[pkg];
    DroppedFirst(s, ds, o);
    for i := 0 to |ds|
      invariant Dropped(s, db.Now(), ds, i, o)
    {
      DroppedNext(s, db.Now(), ds, i, o);
      DiscardStaged(db, db.lists[ds[i]], o);
      db.lists := db.lists - {ds[i]};
    }
    DroppedLast(s, db.Now(), ds, o);
    db.dirs := db.dirs - {pkg};
  }

  /** After `i` directories: their lists are gone, and the rest leads to the same staged files. */
  ghost predicate Dropped(s: State, u: State, ds: seq<Instance>, i: nat, o: Settings)
    requires i <= |ds|
  {
    && u == s.(staged := u.staged, lists := map d | d in s.lists && d !in ds[..i] :: s.lists[d])
    && PurgedDisk(u.staged, FilesIn(s, ds[i..]), o) == PurgedDisk(s.staged, FilesIn(s, ds), o)
  }

  lemma DroppedFirst(s: State, ds: seq<Instance>, o: Settings)
    ensures Dropped(s, s, ds, 0, o)
  {
    hide PurgedDisk, FilesIn;
    assert ds[0..] == ds;
  }

  lemma DroppedNext(s: State, u: State, ds: seq<Instance>, i: nat, o: Settings)
    requires i < |ds| && Dropped(s, u, ds, i, o) && NoTwice(ds) && ds[i] in s.lists
    ensures ds[i] in u.lists
    ensures Dropped(s, u.(staged := PurgedDisk(u.staged, u.lists[ds[i]], o), lists := u.lists - {ds[i]}), ds, i + 1, o)
  {
    hide PurgedDisk, FilesIn;
    NotBefore(ds, i);
    FilesInCons(s, ds, i);
    PurgedBoth(u.staged, s.lists[ds[i]], FilesIn(s, ds[i + 1..]), o);
    FreedLists(s.lists, u.lists, ds, i);
    assert u.lists[ds[i] := []] - {ds[i]} == u.lists - {ds[i]};
  }

  lemma DroppedLast(s: State, u: State, ds: seq<Instance>, o: Settings)
    requires Dropped(s, u, ds, |ds|, o)
    ensures u == s.(staged := PurgedDisk(s.staged, FilesIn(s, ds), o),
                    lists := map d | d in s.lists && d !in ds[..|ds|] :: s.lists[d])
  {
    hide PurgedDisk, FilesIn;
    assert ds[|ds|..] == [];
    PurgedNone(s, u.staged, o);
  }

  lemma NotBefore<T>(s: seq<T>, i: nat)
    requires NoTwice(s) && i < |s|
    ensures s[i] !in s[..i]
  {
    assert forall j | 0 <= j < i :: s[..i][j] == s[j];
  }

  lemma GrownBack(s0: State, s: State, pkg: Package)
    requires Grown(s0, s, pkg) && pkg !in s0.dirs
    ensures pkg in s.dirs
    ensures s == s0.(staged := s.staged, lists := s.lists, dirs := s.dirs) && s.dirs - {pkg} == s0.dirs
    ensures NoTwice(s.dirs[pkg]) && forall d | d in s.dirs[pkg] :: d in s.lists
    ensures s0.lists == map d | d in s.lists && d !in s.dirs[pkg][..|s.dirs[pkg]|] :: s.lists[d]
  {
    assert s.dirs[pkg][..|s.dirs[pkg]|] == s.dirs[pkg];
  }

  method DiscardStaged(db: Database, fs: seq<File>, o: Settings)
    modifies db
    ensures db.Now() == old(db.Now()).(staged := PurgedDisk(old(db.staged), fs, o))
  {
    hide PurgedDisk;
    ghost var was := db.staged;
    assert fs[0..] == fs;
    for i := 0 to |fs|
      invariant db.Now() == old(db.Now()).(staged := db.staged)
      invariant PurgedDisk(db.staged, fs[i..], o) == PurgedDisk(was, fs, o)
    {
      PurgedNext(db.staged, fs, i, o);
      var f, k := fs[i], fs[i].Where();
      if !f.diri.guarded || o.purge ||
         (f.sum.kind != NoSum && k in db.staged && o.digest(f.sum.kind, db.staged[k]) == f.sum.digest) {
        db.staged := db.staged - {k};
      }
    }
    assert fs[|fs|..] == [];
    PurgedNone(db.Now(), db.staged, o);
  }

  lemma PurgedNext(disk: map<Path, Content>, fs: seq<File>, i: nat, o: Settings)
    requires i < |fs|
    ensures PurgedDisk(disk, fs[i..], o) ==
            PurgedDisk(if Unlinks(disk, fs[i], o) then disk - {fs[i].Where()} else disk, fs[i + 1..], o)
  {
    hide Unlinks;
    assert fs[i..][1..] == fs[i + 1..];
  }

  /** What a package owned before and owns after; `was` is what it replaces. */
  predicate Replaced(s: State, t: State, was: Option<Package>, pkg: Package, paths: set<Path>) {
    var gone := if was.Some? then PathsOf(FilesOf(s, was.value)) else {};
    && Agree(t, {}) && t.dirs.Keys == s.dirs.Keys + {pkg} - (if was.Some? then {was.value} else {})
    && t.index.Keys == s.index.Keys - gone + paths
    && (forall k | k in paths :: t.index[k].diri.pkg == pkg)
    && (forall k | k in t.index && k !in paths :: k in s.index && t.index[k] == s.index[k])
    && (forall d | d in s.lists && Some(d.pkg) != was :: d in t.lists && t.lists[d] == Unclaimed(s.lists[d], paths))
  }

  lemma {:induction false} SameFilesIn(s: State, u: State, ds: seq<Instance>)
    requires forall d | d in ds :: d in s.lists && d in u.lists && u.lists[d] == s.lists[d]
    ensures FilesIn(u, ds) == FilesIn(s, ds)
    decreases ds
  {
    if ds != [] {
      assert ds[0] in ds && forall d | d in ds[1..] :: d in ds;
      SameFilesIn(s, u, ds[1..]);
    }
  }

  lemma SameFiles(s: State, u: State, pkg: Package, p: Package)
    requires Shaped(s) && Grown(s, u, pkg) && p in s.dirs && p != pkg
    ensures p in u.dirs && FilesOf(u, p) == FilesOf(s, p)
  {
    RootsIn(s, p);
    SameFilesIn(s, u, s.dirs[p]);
  }

  lemma NotMine(s: State, pkg: Package)
    requires Shaped(s) && pkg !in s.dirs
    ensures forall d | d in s.lists :: d.pkg != pkg
  {
  }

  lemma GrownIs(s: State, u: State, pkg: Package)
    requires Agree(s, {}) && pkg !in s.dirs && Grown(s, u, pkg)
    ensures u.index == s.index && u.dirs.Keys == s.dirs.Keys + {pkg}
    ensures forall d | d in s.lists :: d.pkg != pkg && d in u.lists && u.lists[d] == s.lists[d]
  {
    hide Agree, Shaped;
    AgreeIsShaped(s, {});
    NotMine(s, pkg);
    assert s.dirs[pkg := u.dirs[pkg]].Keys == s.dirs.Keys + {pkg};
  }

  /** An installation that replaces nothing. */
  lemma InstallIs(s: State, u: State, pkg: Package, o: Settings)
    requires Agree(s, {}) && pkg !in s.dirs && Grown(s, u, pkg) && Unpacked(u, pkg)
    ensures Replaced(s, MigratePackage(u, pkg, o), None, pkg, PathsOf(FilesOf(u, pkg)))
  {
    hide Agree, Shaped, FilesOf, MigratePackage, Unpacked, Grown, Unclaimed, Listed;
    UnpackedShape(u, pkg);
    GrownIs(s, u, pkg);
    FilesOfIs(u, pkg);
    MigratePackageKeeps(u, pkg, o);
    TakenBy(s, u, MigratePackage(u, pkg, o), FilesOf(u, pkg), pkg);
  }

  lemma TakenBy(s: State, u: State, t: State, fs: seq<File>, pkg: Package)
    requires Agree(t, {}) && Taken(u, t, fs) && u.index == s.index && u.dirs.Keys == s.dirs.Keys + {pkg}
    requires forall f | f in fs :: f.diri.pkg == pkg
    requires forall d | d in s.lists :: d.pkg != pkg && d in u.lists && u.lists[d] == s.lists[d]
    requires forall d | d in u.lists && d.pkg != pkg :: t.lists[d] == Unclaimed(u.lists[d], PathsOf(fs))
    ensures Replaced(s, t, None, pkg, PathsOf(fs))
  {
    hide Agree, Unclaimed, FilesOf;
    assert s.index.Keys - {} + PathsOf(fs) == t.index.Keys;
    assert s.dirs.Keys + {pkg} - {} == t.dirs.Keys;
  }

  lemma UpgradeIs(s: State, u: State, was: Package, pkg: Package, o: Settings)
    requires Agree(s, {}) && pkg !in s.dirs && was in s.dirs && Grown(s, u, pkg) && Unpacked(u, pkg)
    ensures Shaped(MigratePackage(u, pkg, o)) && was in MigratePackage(u, pkg, o).dirs
    ensures Replaced(s, Upgrade(u, was, pkg, o), Some(was), pkg, PathsOf(FilesOf(u, pkg)))
  {
    hide Agree, Shaped, FilesOf, MigratePackage, Unpacked, Upgrade, Grown, Unclaimed, Taken;
    AgreeIsShaped(s, {});
    GrownIs(s, u, pkg);
    SameFiles(s, u, pkg, was);
    MigratedShape(u, was, pkg, o);
    UpgradeOwnership(u, was, pkg, o);
    var t := Upgrade(u, was, pkg, o);
    assert s.dirs.Keys + {pkg} - {was} == t.dirs.Keys;
  }

  lemma MigratedShape(u: State, was: Package, pkg: Package, o: Settings)
    requires Unpacked(u, pkg) && was in u.dirs
    ensures Shaped(MigratePackage(u, pkg, o)) && was in MigratePackage(u, pkg, o).dirs
  {
    hide Unpacked, MigratePackage;
    MigratePackageKeeps(u, pkg, o);
    AgreeIsShaped(MigratePackage(u, pkg, o), {});
  }

  lemma UnpackedOnto(s: State, u: State, was: Option<Package>, pkg: Package)
    requires Agree(s, {}) && pkg !in s.dirs && (was.Some? ==> was.value in s.dirs) && Grown(s, u, pkg)
    ensures u.index == s.index && u.disk == s.disk && pkg in u.dirs
    ensures was.Some? ==> was.value in u.dirs && was.value != pkg && FilesOf(u, was.value) == FilesOf(s, was.value)
  {
    hide FilesOf, Shaped;
    AgreeIsShaped(s, {});
    if was.Some? { SameFiles(s, u, pkg, was.value); }
  }

  /** A package without files is only entered. */
  method Enter(db: Database, pkg: Package, o: Settings)
    requires Agree(db.Now(), {}) && pkg !in db.dirs
    modifies db
    ensures Grown(old(db.Now()), db.Now(), pkg) && Unpacked(db.Now(), pkg) && FilesOf(db.Now(), pkg) == []
    ensures db.dirs[pkg] == [] && db.staged == old(db.staged)
    ensures db.Now() == MigratePackage(db.Now(), pkg, o)
  {
    ghost var s := db.Now();
    UnpackNothing(s, pkg);
    db.dirs := db.dirs[pkg := []];
    UnpackedIs(s, db.Now(), pkg, [], None, None, {});
    assert FilesIn(db.Now(), []) == [];
  }

  /** Installing `pkg`, in place of `was` if there is one.  On an error only staged files differ. */
  method Install(db: Database, was: Option<Package>, pkg: Package, size: nat, es: seq<Entry>, policy: Policy, o: Settings)
    returns (ok: bool)
    requires Agree(db.Now(), {}) && pkg !in db.dirs && (was.Some? ==> was.value in db.dirs) && Grouped(es)
    modifies db
    ensures ok == (size == 0 || Accepted(es, old(db.index), pkg, policy))
    ensures !ok ==> db.Now() == old(db.Now()).(staged := db.staged)
    ensures ok ==> Replaced(old(db.Now()), db.Now(), was, pkg, if size == 0 then {} else Places(EntryFiles(es)))
    ensures ok && !pkg.overlay ==>
              OnDisk(old(db.Now()), db.Now(), was, if size == 0 then {} else EntryFiles(es),
                     if size == 0 then old(db.staged) else Extracted(old(db.staged), es), policy.guarded, o)
  {
    hide Agree, Accepted, EntryFiles, Grouped, FilesOf, PurgePackage, MigratePackage, Shaped, Unpacked, Grown, Replaced,
      Extracted, OnDisk, Places, Arrivals;
    ghost var s, u := db.Now(), db.Now();
    ok := true;
    if size == 0 {
      Enter(db, pkg, o);
      u := db.Now();
      NothingArrives();
    } else {
      ok := Unpack(db, pkg, es, policy);
      if !ok {
        Discard(db, s, pkg, o);
        return;
      }
      u := db.Now();
      db.Migrate(pkg, o);
    }
    UnpackedOnto(s, u, was, pkg);
    PlacesOf(FilesOf(u, pkg));
    if was.None? {
      InstallIs(s, u, pkg, o);
      if !pkg.overlay { FreshOnDisk(s, u, pkg, policy.guarded, o); }
    } else {
      UpgradeIs(s, u, was.value, pkg, o);
      if !pkg.overlay { UpgradeOnDisk(s, u, was.value, pkg, policy.guarded, o); }
      db.Purge(was.value, o);
      db.dirs := db.dirs - {was.value};
    }
  }
}
