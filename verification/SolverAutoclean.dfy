/** What autoclean takes away when a solve is committed: exactly what nothing needs any more. */
module SolverAutoclean {
  import opened Wrappers
  import opened Version
  import opened Solver
  import opened SolverClosure
  import opened SolverTheorems

  // ----- Who needs a name -----

  /** A package requires the name. */
  ghost predicate Requires(db: Db, p: PkgId, n: NameId)
    requires p < |db.packages|
  {
    exists d | d in db.packages[p].depends :: d.name == n && d.mask != CONFLICT
  }

  /** What stands for `m`, selected or installed, requires the name. */
  ghost predicate NeededBy(db: Db, s: State, m: NameId, n: NameId)
    requires Ready(db, s, {})
  {
    m < |s.name| && After(db, s, m).Some? && Requires(db, After(db, s, m).value, n)
  }

  /** Some other name in the list of dependants needs it. */
  ghost predicate Needed(db: Db, s: State, n: NameId)
    requires Ready(db, s, {}) && n < |s.name|
  {
    exists m | m in db.names[n].rdepends && m != n :: NeededBy(db, s, m, n)
  }

  /** The package that a change replaces depends on the name. */
  ghost predicate OldDepends(db: Db, c: Change, n: NameId) {
    c.oldpkg.Some? && c.oldpkg.value < |db.packages| &&
    exists d | d in db.packages[c.oldpkg.value].depends :: d.name == n
  }

  ghost predicate WasNeeded(db: Db, s: State, from: nat, n: NameId) {
    exists i | from <= i < |s.changes| :: OldDepends(db, s.changes[i], n)
  }

  lemma MustRepairIs(db: Db, s: State, n: NameId, m: NameId)
    requires Ready(db, s, {}) && SingleVersions(db) && Clean(s) && n < |s.name| && m < |s.name| && s.name[n].Empty?
    ensures
      var s' := s.Set(n, Locked(None, true, false));
      Ready(db, s', {}) && (MustRepair(db, s', n, m) <==> m != n && NeededBy(db, s, m, n))
  {
    var s' := s.Set(n, Locked(None, true, false));
    if m != n && NeededBy(db, s, m, n) {
      var p := After(db, s, m).value;
      var d :| d in db.packages[p].depends && d.name == n && d.mask != CONFLICT;
      var k :| 0 <= k < |db.packages[p].depends| && db.packages[p].depends[k] == d;
      assert Broken(db, s', p, n);
    }
  }

  lemma NotNeededIs(db: Db, s: State, n: NameId)
    requires Ready(db, s, {}) && SingleVersions(db) && Clean(s) && n < |s.name| && s.name[n].Empty?
    ensures NotNeeded(db, s, n) <==> !Needed(db, s, n)
  {
    hide MustRepair, NeededBy;
    forall m | m in db.names[n].rdepends
      ensures
        var s' := s.Set(n, Locked(None, true, false));
        Ready(db, s', {}) && (MustRepair(db, s', n, m) <==> m != n && NeededBy(db, s, m, n))
    {
      MustRepairIs(db, s, n, m);
    }
  }

  // ----- A removal that breaks nothing -----

  lemma {:induction false} RepairsNothing(db: Db, s: State, n: NameId, i: nat)
    requires Ready(db, s, {}) && n < |s.name| && i <= |db.names[n].rdepends|
    requires forall k | i <= k < |db.names[n].rdepends| :: !MustRepair(db, s, n, db.names[n].rdepends[k])
    ensures RepairDependants(db, s, {}, n, true, i) == (s, 0)
    decreases |db.names[n].rdepends| - i
  {
    hide MustRepair, LockName, LockDependency;
    if i < |db.names[n].rdepends| { RepairsNothing(db, s, n, i + 1); }
  }

  /** It takes just this name away. */
  lemma RemovesAlone(db: Db, s: State, n: NameId)
    requires Ready(db, s, {}) && n < |s.name| && s.name[n].Empty? && NotNeeded(db, s, n)
    ensures Ready(db, LockAs(s, n, None), {}) && LockName(db, s, {}, n, None) == (Record(db, LockAs(s, n, None), n, None), 0)
  {
    var s1 := LockAs(s, n, None);
    LockBegins(db, s, {}, n, None);
    forall k | 0 <= k < |db.names[n].rdepends|
      ensures !MustRepair(db, s1, n, db.names[n].rdepends[k])
    {
      PendingRepairs(db, s, n, db.names[n].rdepends[k]);
    }
    hide MustRepair, RepairDependants, Measure;
    RepairsNothing(db, s1, n, 0);
  }

  lemma PendingRepairs(db: Db, s: State, n: NameId, m: NameId)
    requires Ready(db, s, {}) && n < |s.name| && m < |s.name| && s.name[n].Empty?
    ensures Ready(db, s.Set(n, Locked(None, true, false)), {}) && Ready(db, LockAs(s, n, None), {})
    ensures MustRepair(db, s.Set(n, Locked(None, true, false)), n, m) == MustRepair(db, LockAs(s, n, None), n, m)
  {
  }

  /** The state after it. */
  function Without(db: Db, s: State, n: NameId): State
    requires Valid(db) && n < |db.names| && n < |s.name|
  {
    Record(db, LockAs(s, n, None), n, None)
  }

  lemma WithoutIs(db: Db, s: State, n: NameId)
    requires Ready(db, s, {}) && Clean(s) && n < |s.name| && s.name[n].Empty?
    ensures
      var t := Without(db, s, n);
      && Ready(db, t, {}) && Clean(t) && t.name == s.name[n := Locked(None, false, false)] && s.changes <= t.changes
      && (Installed(db, n).Some? ==> t.changes == s.changes + [Change(Installed(db, n), None)])
      && forall m | 0 <= m < |s.name| :: After(db, t, m) == if m == n then None else After(db, s, m)
  {
    hide Installed;
  }

  lemma NeedsAfter(db: Db, s: State, n: NameId, k: NameId)
    requires Ready(db, s, {}) && Clean(s) && n < |s.name| && s.name[n].Empty? && k < |s.name|
    ensures
      var t := Without(db, s, n);
      && Ready(db, t, {})
      && (Needed(db, t, k) ==> Needed(db, s, k))
      && (Needed(db, s, k) ==> Needed(db, t, k) || WasNeeded(db, t, |s.changes|, k))
  {
    WithoutIs(db, s, n);
    hide Installed, Requires, After, Record;
    var t := Without(db, s, n);
    if Needed(db, t, k) {
      var m :| m in db.names[k].rdepends && m != k && NeededBy(db, t, m, k);
      assert NeededBy(db, s, m, k);
    }
    if Needed(db, s, k) {
      var m :| m in db.names[k].rdepends && m != k && NeededBy(db, s, m, k);
      if m != n {
        assert NeededBy(db, t, m, k);
      } else {
        OldOnes(db, s, n, k);
      }
    }
  }

  /** What an untouched name needed is needed by the package that its removal replaces. */
  lemma OldOnes(db: Db, s: State, n: NameId, k: NameId)
    requires Ready(db, s, {}) && n < |s.name| && s.name[n].Empty? && NeededBy(db, s, n, k)
    ensures
      var t := Without(db, s, n);
      |t.changes| == |s.changes| + 1 && WasNeeded(db, t, |s.changes|, k)
  {
    var t := Without(db, s, n);
    assert After(db, s, n) == Installed(db, n);
    assert t.changes[|s.changes|] == Change(Installed(db, n), None);
    assert OldDepends(db, t.changes[|s.changes|], k);
  }

  // ----- One walk -----

  /** Taken away rightly: not asked for by the user, not needed, and needed by a replaced package. */
  ghost predicate TakenAway(db: Db, s: State, n: NameId)
    requires Ready(db, s, {}) && n < |s.name|
  {
    && s.name[n] == Locked(None, false, false) && !db.names[n].toplevel
    && !Needed(db, s, n) && WasNeeded(db, s, 0, n)
  }

  /** From `s0` on nothing but such removals has happened. */
  ghost predicate OnlyTaken(db: Db, s0: State, s: State)
    requires Ready(db, s, {})
  {
    && Clean(s) && |s.name| == |s0.name|
    && forall n | 0 <= n < |s.name| ::
         if s0.name[n].Locked? then s.name[n] == s0.name[n] else s.name[n].Empty? || TakenAway(db, s, n)
  }

  lemma TakeOne(db: Db, s0: State, s: State, n: NameId)
    requires Ready(db, s, {}) && SingleVersions(db) && OnlyTaken(db, s0, s) && n < |s.name|
    requires s.name[n].Empty? && !db.names[n].toplevel && !Needed(db, s, n) && WasNeeded(db, s, 0, n)
    ensures Ready(db, Without(db, s, n), {}) && OnlyTaken(db, s0, Without(db, s, n))
  {
    WithoutIs(db, s, n);
    hide Needed, Without;
    var t := Without(db, s, n);
    forall k | 0 <= k < |s.name| && WasNeeded(db, s, 0, k)
      ensures WasNeeded(db, t, 0, k)
    {
      var i :| 0 <= i < |s.changes| && OldDepends(db, s.changes[i], k);
      assert t.changes[i] == s.changes[i];
    }
    forall k | 0 <= k < |s.name| && !Needed(db, s, k)
      ensures !Needed(db, t, k)
    {
      NeedsAfter(db, s, n, k);
    }
  }

  /** Nothing is to be done about a name, or a change yet to be looked at leads to it. */
  ghost predicate Done(db: Db, s: State, from: nat, n: NameId)
    requires Ready(db, s, {}) && n < |s.name|
  {
    s.name[n].Locked? || db.names[n].toplevel || Needed(db, s, n) || WasNeeded(db, s, from, n)
  }

  lemma TakeOneDone(db: Db, s: State, n: NameId, from: nat, k: NameId)
    requires Ready(db, s, {}) && Clean(s) && n < |s.name| && s.name[n].Empty? && k < |s.name| && from <= |s.changes|
    requires Done(db, s, from, k)
    ensures Ready(db, Without(db, s, n), {}) && Done(db, Without(db, s, n), from, k)
  {
    WithoutIs(db, s, n);
    NeedsAfter(db, s, n, k);
    hide Needed, Without, OldDepends;
    var t := Without(db, s, n);
    if WasNeeded(db, s, from, k) {
      var i :| from <= i < |s.changes| && OldDepends(db, s.changes[i], k);
      assert t.changes[i] == s.changes[i];
    } else if WasNeeded(db, t, |s.changes|, k) {
      var i :| |s.changes| <= i < |t.changes| && OldDepends(db, t.changes[i], k);
    }
  }

  /** A walk over dependencies of replaced packages takes away only what it may, and leaves none of
      these names, nor any that was done, undone. */
  lemma {:induction false} AutocleanTakes(db: Db, s0: State, s: State, deps: seq<Dependency>, from: nat)
    requires Ready(db, s, {}) && SingleVersions(db) && ValidDeps(db, deps) && OnlyTaken(db, s0, s)
    requires from <= |s.changes| && forall d | d in deps :: WasNeeded(db, s, 0, d.name)
    ensures
      var t := Autoclean(db, s, deps);
      && OnlyTaken(db, s0, t) && s.changes <= t.changes
      && (forall k | 0 <= k < |s.name| && Done(db, s, from, k) :: Done(db, t, from, k))
      && (forall d | d in deps :: Done(db, t, from, d.name))
    decreases deps
  {
    hide NotNeeded, Needed, WasNeeded, TakenAway, SingleVersions;
    if deps != [] {
      var n := deps[0].name;
      assert deps[0] in deps && forall d | d in deps :: d == deps[0] || d in deps[1..];
      if !s.name[n].Locked? && !db.names[n].toplevel { NotNeededIs(db, s, n); }
      if s.name[n].Locked? || db.names[n].toplevel || !NotNeeded(db, s, n) {
        AutocleanTakes(db, s0, s, deps[1..], from);
      } else {
        RemovesAlone(db, s, n);
        TakeOne(db, s0, s, n);
        WithoutIs(db, s, n);
        var t := Without(db, s, n);
        hide Without, LockName;
        forall k | 0 <= k < |s.name| && Done(db, s, from, k)
          ensures Done(db, t, from, k)
        {
          TakeOneDone(db, s, n, from, k);
        }
        forall d | d in deps[1..]
          ensures WasNeeded(db, t, 0, d.name)
        {
          WasNeededStays(db, s, t, d.name);
        }
        AutocleanTakes(db, s0, t, deps[1..], from);
      }
    }
  }

  lemma WasNeededStays(db: Db, s: State, t: State, n: NameId)
    requires s.changes <= t.changes && WasNeeded(db, s, 0, n)
    ensures WasNeeded(db, t, 0, n)
  {
    var i :| 0 <= i < |s.changes| && OldDepends(db, s.changes[i], n);
    assert t.changes[i] == s.changes[i];
  }

  // ----- The whole commit -----

  ghost predicate AllDone(db: Db, s: State, i: nat)
    requires Ready(db, s, {}) && i <= |s.changes|
  {
    forall j, n | 0 <= j < i && 0 <= n < |s.name| && OldDepends(db, s.changes[j], n) :: Done(db, s, i, n)
  }

  lemma {:induction false} CommitTakes(db: Db, s0: State, s: State, i: nat)
    requires Ready(db, s, {}) && SingleVersions(db) && i <= |s.changes| && OnlyTaken(db, s0, s) && AllDone(db, s, i)
    ensures
      var t := CommitClean(db, s, i);
      OnlyTaken(db, s0, t) && s.changes <= t.changes && AllDone(db, t, |t.changes|)
    decreases Measure(s, {}), |s.changes| - i
  {
    hide Autoclean, OnlyTaken, Done, SingleVersions, OldDepends, Measure;
    if i < |s.changes| {
      var c := s.changes[i];
      if c.oldpkg.None? {
        NoOldPackage(db, s, i);
        CommitTakes(db, s0, s, i + 1);
      } else {
        var deps := db.packages[c.oldpkg.value].depends;
        OldNeeds(db, s, i);
        AutocleanTakes(db, s0, s, deps, i + 1);
        var t := Autoclean(db, s, deps);
        NextDone(db, s, t, i, i + 1);
        CommitTakes(db, s0, t, i + 1);
      }
    }
  }

  lemma NoOldPackage(db: Db, s: State, i: nat)
    requires Ready(db, s, {}) && i < |s.changes| && AllDone(db, s, i) && s.changes[i].oldpkg.None?
    ensures AllDone(db, s, i + 1)
  {
    hide Needed;
    forall j, n | 0 <= j < i + 1 && 0 <= n < |s.name| && OldDepends(db, s.changes[j], n)
      ensures Done(db, s, i + 1, n)
    {
      assert Done(db, s, i, n);
      if WasNeeded(db, s, i, n) {
        var k :| i <= k < |s.changes| && OldDepends(db, s.changes[k], n);
        assert k != i;
      }
    }
  }

  lemma OldNeeds(db: Db, s: State, i: nat)
    requires Ready(db, s, {}) && i < |s.changes| && s.changes[i].oldpkg.Some?
    ensures s.changes[i].oldpkg.value < |db.packages| && ValidDeps(db, db.packages[s.changes[i].oldpkg.value].depends)
    ensures forall d | d in db.packages[s.changes[i].oldpkg.value].depends :: WasNeeded(db, s, 0, d.name)
  {
    forall d | d in db.packages[s.changes[i].oldpkg.value].depends
      ensures WasNeeded(db, s, 0, d.name)
    {
      assert OldDepends(db, s.changes[i], d.name);
    }
  }

  lemma NextDone(db: Db, s: State, t: State, i: nat, from: nat)
    requires Ready(db, s, {}) && Ready(db, t, {}) && i < |s.changes| && s.changes[i].oldpkg.Some? && AllDone(db, s, i) && from == i + 1
    requires |t.name| == |s.name| && s.changes <= t.changes && s.changes[i].oldpkg.value < |db.packages|
    requires forall k | 0 <= k < |s.name| && Done(db, s, from, k) :: Done(db, t, from, k)
    requires forall d | d in db.packages[s.changes[i].oldpkg.value].depends :: d.name < |t.name| && Done(db, t, from, d.name)
    ensures AllDone(db, t, from)
  {
    hide Needed;
    forall j, n | 0 <= j < from && 0 <= n < |t.name| && OldDepends(db, t.changes[j], n)
      ensures Done(db, t, from, n)
    {
      assert t.changes[j] == s.changes[j];
      if j < i {
        assert Done(db, s, i, n);
        if WasNeeded(db, s, i, n) && !OldDepends(db, s.changes[i], n) {
          var k :| i <= k < |s.changes| && OldDepends(db, s.changes[k], n);
          assert k != i;
          assert WasNeeded(db, s, from, n);
        }
      }
    }
  }

  /** After a successful solve the commit takes away a name only if it is not asked for by the user,
      a replaced package depended on it, and nothing that stays needs it; it takes nothing else, and
      in the end no such name is left. */
  lemma AutocleanIsExact(db: Db, requests: seq<Dependency>)
    requires Valid(db) && SingleVersions(db) && ValidDeps(db, requests) && LockAll(db, Fresh(db), requests).1 == 0
    ensures
      var s := LockAll(db, Fresh(db), requests).0;
      var t := CommitClean(db, s, 0);
      && Ready(db, t, {}) && |t.name| == |s.name|
      && (forall n | 0 <= n < |s.name| && s.name[n].Locked? :: t.name[n] == s.name[n])
      && (forall n | 0 <= n < |s.name| && !s.name[n].Locked? && t.name[n].Locked? ::
            && t.name[n] == Locked(None, false, false) && !db.names[n].toplevel
            && !Needed(db, t, n) && exists c | c in t.changes :: OldDepends(db, c, n))
      && (forall n, c | 0 <= n < |t.name| && c in t.changes && OldDepends(db, c, n) ::
            t.name[n].Locked? || db.names[n].toplevel || Needed(db, t, n))
  {
    hide LockAll, Closed, Faithful, Kept, Needed, OldDepends, SingleVersions;
    FreshSolved(db);
    LockAllSolved(db, Fresh(db), requests);
    var s := LockAll(db, Fresh(db), requests).0;
    assert OnlyTaken(db, s, s) && AllDone(db, s, 0);
    CommitTakes(db, s, s, 0);
    hide CommitClean;
    var t := CommitClean(db, s, 0);
    forall n, c | 0 <= n < |t.name| && c in t.changes && OldDepends(db, c, n)
      ensures t.name[n].Locked? || db.names[n].toplevel || Needed(db, t, n)
    {
      var j :| 0 <= j < |t.changes| && t.changes[j] == c;
      assert Done(db, t, |t.changes|, n);
    }
  }
}
