/** Which archives may be installed, and what of them is, in terms of names. */
module OwnershipRules {
  import opened Wrappers
  import opened Ownership
  import opened OwnershipState
  import opened OwnershipOutcome
  import opened OwnershipInstall

  // ----- Names -----

  /** A name that is neither package information nor a script, of either format. */
  predicate Ordinary(name: string) {
    name != "" && name[0] != '.' && !("var/db/apk/" <= name)
  }

  /** A name in a directory, with what stands behind the last slash. */
  lemma {:induction false} SlashIs(dir: string, base: string)
    requires '/' !in base
    ensures LastSlash(dir + "/" + base) == |dir|
    decreases base
  {
    var name := dir + "/" + base;
    if base != "" {
      var front := base[..|base| - 1];
      assert base == front + [base[|base| - 1]] && base[|base| - 1] in base && forall c | c in front :: c in base;
      assert name[..|name| - 1] == dir + "/" + front;
      SlashIs(dir, front);
    }
  }

  lemma {:induction false} NoSlash(name: string)
    requires '/' !in name
    ensures LastSlash(name) == -1
  {
    if name != "" {
      assert name[|name| - 1] in name && forall c | c in name[..|name| - 1] :: c in name;
      NoSlash(name[..|name| - 1]);
    }
  }

  lemma OrdinaryIs(name: string)
    requires Ordinary(name)
    ensures !IsMeta(name)
  {
  }

  /** A file goes to its directory, by the name behind the last slash. */
  lemma FileGoesTo(dir: string, base: string, sum: Sum, content: Content)
    requires Ordinary(dir + "/" + base) && '/' !in base && !(".keep_" <= base && |base| > 6)
    ensures Target(FileEntry(dir + "/" + base, sum, content)) == Some(Path(dir, base))
  {
    var name := dir + "/" + base;
    SlashIs(dir, base);
    OrdinaryIs(name);
    assert name[..|dir|] == dir && name[|dir| + 1..] == base;
  }

  /** What is skipped: information, scripts, placeholders, and files at the root. */
  lemma NotInstalled(dir: string, base: string, sum: Sum, content: Content)
    requires '/' !in base
    ensures
      var name := dir + "/" + base;
      name[0] == '.' || "var/db/apk/" <= name || (".keep_" <= base && |base| > 6) ==>
        Target(FileEntry(name, sum, content)) == None
    ensures Target(FileEntry(base, sum, content)) == None
  {
    var name := dir + "/" + base;
    SlashIs(dir, base);
    NoSlash(base);
    assert name[..|dir|] == dir && name[|dir| + 1..] == base;
  }

  // ----- Archives -----

  lemma DirIs(dir: string)
    requires Ordinary(dir) && dir[|dir| - 1] != '/'
    ensures Ordinary(dir + "/") || dir == "var/db/apk"
    ensures Strip(dir + "/") == dir && Strip(dir) == dir
  {
    assert (dir + "/")[..|dir|] == dir;
    if "var/db/apk/" <= dir + "/" { assert dir == "var/db/apk"; }
  }

  /** A directory and a file in it: the file may not be another package's, unless that is the overlay,
      another version of the same package or one that is replaced, or by force. */
  lemma OneFileAccepted(
    index: map<Path, File>, pkg: Package, policy: Policy, dir: string, base: string, sum: Sum, content: Content)
    requires Ordinary(dir) && dir[|dir| - 1] != '/' && dir != "var/db/apk"
    requires '/' !in base && !(".keep_" <= base && |base| > 6)
    ensures
      var es := [DirEntry(dir + "/"), FileEntry(dir + "/" + base, sum, content)];
      && EntryFiles(es) == {Arrival(Path(dir, base), sum)}
      && (Accepted(es, index, pkg, policy) <==>
            || Path(dir, base) !in index
            || index[Path(dir, base)].diri.pkg.overlay
            || index[Path(dir, base)].diri.pkg.name == pkg.name
            || index[Path(dir, base)].diri.pkg.name in policy.replaced
            || policy.force)
  {
    var d, f := DirEntry(dir + "/"), FileEntry(dir + "/" + base, sum, content);
    var es := [d, f];
    DirIs(dir);
    OrdinaryIs(dir + "/");
    InDirectory(dir, base);
    FileGoesTo(dir, base, sum, content);
    hide IsMeta, Strip;
    assert es[..1] == [d] && es[..0] == [] && es[0] == d && es[1] == f;
    assert MakesDir(d) && Strip(d.name) == dir && dir in DirNames(es[..1]) by { assert es[..1][0] == d; }
    assert Target(d) == None && Allowed(es[..0], es[0], index, pkg, policy);
    assert Accepted(es, index, pkg, policy) <==> Allowed(es[..1], es[1], index, pkg, policy);
    FilesOfTwo(d, f);
  }

  lemma InDirectory(dir: string, base: string)
    requires Ordinary(dir) && Ordinary(dir + "/") && '/' !in base
    ensures Ordinary(dir + "/" + base)
  {
    var name, mark := dir + "/" + base, "var/db/apk/";
    assert mark[10] == '/';
    if |dir| + 1 >= |mark| {
      assert name[..|mark|] == (dir + "/")[..|mark|];
    } else if |name| >= |mark| {
      assert name[10] == base[10 - |dir| - 1] && name[10] in base;
    }
  }

  lemma FilesOfTwo(d: Entry, f: Entry)
    requires Target(d) == None && f.FileEntry? && Target(f).Some?
    ensures EntryFiles([d, f]) == {Arrival(Target(f).value, f.sum)}
  {
    hide Target;
    var es := [d, f];
    assert es[0] == d && es[1] == f;
    assert Arrival(Target(es[1]).value, es[1].sum) in EntryFiles(es);
  }

  /** A file without its directory before it is refused. */
  lemma FileNeedsDirectory(
    index: map<Path, File>, pkg: Package, policy: Policy, dir: string, base: string, sum: Sum, content: Content)
    requires Ordinary(dir + "/" + base) && '/' !in base && !(".keep_" <= base && |base| > 6)
    ensures !Accepted([FileEntry(dir + "/" + base, sum, content)], index, pkg, policy)
  {
    var es := [FileEntry(dir + "/" + base, sum, content)];
    FileGoesTo(dir, base, sum, content);
    assert es[..0] == [] && DirNames([]) == {};
    assert !Allowed(es[..0], es[0], index, pkg, policy);
  }

  // ----- Purging -----

  /** A purge of files that nobody else owns, exactly: a local change in a protected directory stays. */
  lemma {:induction false} PurgedExactly(disk: map<Path, Content>, fs: seq<File>, o: Settings, k: Path)
    ensures
      var left := PurgedDisk(disk, fs, o);
      && (k in left <==>
            k in disk &&
            forall f | f in fs && f.Where() == k ::
              f.diri.guarded && !o.purge && (f.sum.kind.NoSum? || o.digest(f.sum.kind, disk[k]) != f.sum.digest))
      && (k in left ==> left[k] == disk[k])
    decreases fs
  {
    if fs != [] {
      var rest := if Unlinks(disk, fs[0], o) then disk - {fs[0].Where()} else disk;
      PurgedExactly(rest, fs[1..], o, k);
      assert forall f | f in fs :: f == fs[0] || f in fs[1..];
      assert fs[0] in fs && forall f | f in fs[1..] :: f in fs;
    }
  }
}
