/** The directory table, updated in place. */
module DirectoryState {
  import opened Directories

  class DirTable {
    var refs: map<string, int>
    var count: int
    var removed: seq<string>

    ghost function Now(): State
      reads this
    {
      State(refs, count, removed)
    }

    constructor ()
      ensures Now() == EMPTY
    {
      refs, count, removed := map[], 0, [];
    }

    /** apk_db_dir_get. */
    method Get(name: string)
      modifies this
      ensures Now() == Acquire(old(Now()), name)
      decreases |name|
    {
      if name in refs {
        refs := refs[name := refs[name] + 1];
        return;
      }
      count := count + 1;
      refs := refs[name := 1];
      if name != "" {
        var parent := ParentOf(name);
        Get(parent);
      }
    }

    /** apk_db_dir_unref, on a directory of the table. */
    method Unref(name: string, rmdir: bool)
      modifies this
      ensures Now() == Release(old(Now()), name, rmdir)
      decreases |name|
    {
      if name !in refs { return; }
      refs := refs[name := refs[name] - 1];
      if refs[name] > 0 { return; }
      count := count - 1;
      if rmdir { removed := removed + [name]; }
      if name != "" {
        var parent := ParentOf(name);
        Unref(parent, rmdir);
      }
    }
  }

  /** apk_blob_rsplit at the last slash. */
  method ParentOf(name: string) returns (p: string)
    requires name != ""
    ensures p == Parent(name)
  {
    var i := |name|;
    assert name[..i] == name;
    while i > 0 && name[i - 1] != '/'
      invariant 0 <= i <= |name|
      invariant i > 0 ==> Parent(name[..i]) == Parent(name)
      invariant i == 0 ==> Parent(name) == ""
    {
      assert name[..i][..i - 1] == name[..i - 1];
      i := i - 1;
    }
    if i == 0 { return ""; }
    p := name[..i - 1];
    assert name[..i][..i - 1] == p;
  }
}
