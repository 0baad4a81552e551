/** Removing an installed name takes away exactly what depends on it, dependants first. */
module SolverRemoval {
  import opened Wrappers
  import opened Version
  import opened Solver
  import opened SolverClosure
  import opened SolverTheorems

  /** The installed package of `m` requires `n`. */
  ghost predicate NeedsName(db: Db, m: NameId, n: NameId)
    requires Valid(db)
  {
    m < |db.names| && Installed(db, m).Some? &&
    exists d | d in db.packages[Installed(db, m).value].depends :: d.name == n && d.mask != CONFLICT
  }

  /** And `n` has it in its list of dependants. */
  ghost predicate DependsOn(db: Db, m: NameId, n: NameId)
    requires Valid(db)
  {
    NeedsName(db, m, n) && n < |db.names| && m in db.names[n].rdepends
  }

  /** With complete lists that is one and the same. */
  lemma ListedNeeds(db: Db, m: NameId, n: NameId)
    requires Valid(db) && DependantsListed(db)
    ensures DependsOn(db, m, n) <==> NeedsName(db, m, n)
  {
  }

  ghost predicate IsPath(db: Db, path: seq<NameId>)
    requires Valid(db)
  {
    path != [] && forall i | 0 <= i < |path| - 1 :: DependsOn(db, path[i], path[i + 1])
  }

  /** A chain of installed packages leads from `m` to `n`. */
  ghost predicate Reaches(db: Db, m: NameId, n: NameId)
    requires Valid(db)
  {
    exists path :: IsPath(db, path) && path[0] == m && path[|path| - 1] == n
  }

  lemma ReachesSelf(db: Db, n: NameId)
    requires Valid(db)
    ensures Reaches(db, n, n)
  {
    assert IsPath(db, [n]) && [n][|[n]| - 1] == n;
  }

  lemma ReachesThrough(db: Db, l: NameId, m: NameId, n: NameId)
    requires Valid(db) && Reaches(db, l, m) && DependsOn(db, m, n)
    ensures Reaches(db, l, n)
  {
    var path :| IsPath(db, path) && path[0] == l && path[|path| - 1] == m;
    var path' := path + [n];
    forall i | 0 <= i < |path'| - 1
      ensures DependsOn(db, path'[i], path'[i + 1])
    {
      if i < |path| - 1 { assert DependsOn(db, path[i], path[i + 1]); }
    }
    assert path'[0] == l && path'[|path'| - 1] == n;
  }

  /** Nothing but removals has happened so far. */
  ghost predicate Removing(s: State) {
    forall n | 0 <= n < |s.name| :: s.name[n].Empty? || s.name[n] == Locked(None, false, false)
  }

  ghost predicate Gone(s: State, n: NameId) { n < |s.name| && s.name[n].Locked? }

  /** What went between `s` and `s'` reaches `n`, and nothing that is left depends on it. */
  ghost predicate Removed(db: Db, s: State, s': State, n: NameId)
    requires Valid(db)
  {
    && Removing(s') && |s'.name| == |s.name|
    && (forall m | Gone(s, m) :: Gone(s', m))
    && (forall m | Gone(s', m) && !Gone(s, m) :: Reaches(db, m, n))
    && (forall m, l | Gone(s', m) && !Gone(s, m) && DependsOn(db, l, m) :: Gone(s', l))
  }

  lemma RepairsDependants(db: Db, s: State, n: NameId, m: NameId)
    requires Ready(db, s, {}) && SingleVersions(db) && Removing(s) && Gone(s, n) && m < |s.name|
    requires m in db.names[n].rdepends
    ensures MustRepair(db, s, n, m) <==> DependsOn(db, m, n) && !Gone(s, m)
  {
  }

  lemma {:induction false} LockNameRemoves(db: Db, s: State, n: NameId)
    requires Ready(db, s, {}) && SingleVersions(db) && Removing(s) && n < |s.name| && !Gone(s, n) && Installed(db, n).Some?
    ensures
      var s' := LockName(db, s, {}, n, None).0;
      Removed(db, s, s', n) && Gone(s', n)
    decreases Measure(s, {}), 1, 0
  {
    hide RepairDependants, Measure, SingleVersions, DependsOn, Reaches;
    LockBegins(db, s, {}, n, None);
    var s1 := LockAs(s, n, None);
    ListedDependants(db, n);
    RepairDependantsRemoves(db, s1, n, 0);
    ReachesSelf(db, n);
    var s2 := RepairDependants(db, s1, {}, n, true, 0).0;
    assert LockName(db, s, {}, n, None).0.name == s2.name;
    assert forall m | m != n :: Gone(s1, m) == Gone(s, m);
  }

  lemma {:induction false} RepairDependantsRemoves(db: Db, s: State, n: NameId, i: nat)
    requires Ready(db, s, {}) && SingleVersions(db) && Removing(s) && Gone(s, n) && i <= |db.names[n].rdepends|
    requires forall l | DependsOn(db, l, n) :: l in db.names[n].rdepends[i..] || Gone(s, l)
    ensures
      var s' := RepairDependants(db, s, {}, n, true, i).0;
      Removed(db, s, s', n) && forall l | DependsOn(db, l, n) :: Gone(s', l)
    decreases Measure(s, {}), 3, |db.names[n].rdepends| - i
  {
    hide LockName, Measure, DependsOn, Reaches, MustRepair;
    if i < |db.names[n].rdepends| {
      var m := db.names[n].rdepends[i];
      assert db.names[n].rdepends[i..] == [m] + db.names[n].rdepends[i + 1..];
      RepairsDependants(db, s, n, m);
      if !MustRepair(db, s, n, m) {
        RepairDependantsRemoves(db, s, n, i + 1);
      } else {
        InstalledDependant(db, m, n);
        MustRepairCanLock(db, s, n, m);
        LockNameRemoves(db, s, m);
        var s1 := LockName(db, s, {}, m, None).0;
        BelowMeasure(s1, {}, s, {});
        RepairDependantsRemoves(db, s1, n, i + 1);
        forall l | Gone(s1, l) && !Gone(s, l)
          ensures Reaches(db, l, n)
        {
          ReachesThrough(db, l, m, n);
        }
      }
    }
  }

  lemma ListedDependants(db: Db, n: NameId)
    requires Valid(db) && SingleVersions(db) && n < |db.names|
    ensures forall l | DependsOn(db, l, n) :: l in db.names[n].rdepends[0..]
  {
  }

  lemma InstalledDependant(db: Db, m: NameId, n: NameId)
    requires Valid(db) && DependsOn(db, m, n)
    ensures m < |db.names| && Installed(db, m).Some?
  {
  }

  /** Removing one installed name removes exactly the packages that reach it by listed dependencies,
      and succeeds; with complete lists, nothing that is left needs what has gone. */
  lemma RemovalIsReverseClosure(db: Db, n: NameId)
    requires Valid(db) && SingleVersions(db) && n < |db.names| && Installed(db, n).Some?
    ensures
      var (s, r) := LockDependency(db, Fresh(db), {}, Dependency(n, CONFLICT, None));
      && r == 0 && Removing(s)
      && (forall m | 0 <= m < |s.name| :: s.name[m].Locked? <==> Reaches(db, m, n))
      && (DependantsListed(db) ==> forall l, m | Gone(s, m) && NeedsName(db, l, m) :: Gone(s, l))
  {
    hide LockName, SingleVersions, DependsOn, NeedsName, DependantsListed, Installed;
    var s0 := Fresh(db);
    var s1 := s0.Set(n, Locked(None, true, false));
    var (s, r) := LockDependency(db, s0, {}, Dependency(n, CONFLICT, None));
    assert Prune(db, s0, Dependency(n, CONFLICT, None)) == (s1, 1);
    assert (s, r) == LockName(db, s1, {}, n, None);
    PendingOrNot(db, s0, n);
    LockNameRemoves(db, s0, n);
    forall m | 0 <= m < |s.name| && Reaches(db, m, n)
      ensures Gone(s, m)
    {
      var path :| IsPath(db, path) && path[0] == m && path[|path| - 1] == n;
      GoneAlong(db, s0, s, path, 0, n);
    }
    forall l, m | DependantsListed(db) && Gone(s, m) && NeedsName(db, l, m)
      ensures Gone(s, l)
    {
      ListedNeeds(db, l, m);
    }
  }

  lemma PendingOrNot(db: Db, s: State, n: NameId)
    requires Ready(db, s, {}) && n < |s.name| && s.name[n].Empty?
    ensures Ready(db, s.Set(n, Locked(None, true, false)), {})
    ensures LockName(db, s.Set(n, Locked(None, true, false)), {}, n, None) == LockName(db, s, {}, n, None)
  {
    hide RepairDependants;
    var s1 := s.Set(n, Locked(None, true, false));
    assert LockAs(s1, n, None) == LockAs(s, n, None);
  }

  lemma {:induction false} GoneAlong(db: Db, s0: State, s: State, path: seq<NameId>, i: nat, n: NameId)
    requires Valid(db) && IsPath(db, path) && i < |path| && path[|path| - 1] == n
    requires Removed(db, s0, s, n) && Gone(s, n) && forall m :: !Gone(s0, m)
    ensures Gone(s, path[i])
    decreases |path| - i
  {
    if i < |path| - 1 {
      GoneAlong(db, s0, s, path, i + 1, n);
      assert DependsOn(db, path[i], path[i + 1]);
    }
  }

  // ----- Order -----

  /** `height` witnesses that the dependencies of installed packages are acyclic. */
  ghost predicate Acyclic(db: Db, height: NameId -> nat)
    requires Valid(db)
  {
    forall m, n | DependsOn(db, m, n) :: height(m) > height(n)
  }

  /** Every change comes after the changes of all packages that depend on its package. */
  ghost predicate DependantsFirst(db: Db, s: State)
    requires Ready(db, s, {})
  {
    forall x, l | 0 <= x < |s.changes| && DependsOn(db, l, ChangedName(db, s.changes[x])) ::
      exists y | 0 <= y < x :: ChangedName(db, s.changes[y]) == l
  }

  /** Every removed package is listed unless its removal is still under way. */
  ghost predicate ListedBut(db: Db, s: State, busy: set<NameId>)
    requires Ready(db, s, {})
  {
    forall m | Gone(s, m) && m !in busy && Installed(db, m).Some? :: Listed(db, s, m)
  }

  ghost predicate InOrder(db: Db, s: State, busy: set<NameId>)
    requires Ready(db, s, {})
  {
    DependantsFirst(db, s) && ListedBut(db, s, busy)
  }

  lemma {:induction false} LockNameInOrder(db: Db, s: State, n: NameId, busy: set<NameId>, height: NameId -> nat)
    requires Ready(db, s, {}) && SingleVersions(db) && Removing(s) && n < |s.name| && !Gone(s, n) && Installed(db, n).Some?
    requires Acyclic(db, height) && InOrder(db, s, busy) && forall b | b in busy :: height(b) < height(n)
    ensures InOrder(db, LockName(db, s, {}, n, None).0, busy)
    decreases Measure(s, {}), 1, 0
  {
    hide Measure, SingleVersions;
    LockBegins(db, s, {}, n, None);
    var s1 := LockAs(s, n, None);
    assert InOrder(db, s1, busy + {n}) by {
      forall m | Gone(s1, m) && m !in busy + {n} && Installed(db, m).Some?
        ensures Listed(db, s1, m)
      {
        assert Gone(s, m) && Listed(db, s, m);
      }
    }
    RepairInOrder(db, s1, n, 0, busy + {n}, height);
    ListedDependants(db, n);
    RepairDependantsRemoves(db, s1, n, 0);
    RecordInOrder(db, RepairDependants(db, s1, {}, n, true, 0).0, n, busy, height);
  }

  lemma RecordInOrder(db: Db, s: State, n: NameId, busy: set<NameId>, height: NameId -> nat)
    requires Ready(db, s, {}) && n < |s.name| && Installed(db, n).Some?
    requires Acyclic(db, height) && InOrder(db, s, busy + {n}) && forall b | b in busy :: height(b) < height(n)
    requires forall l | DependsOn(db, l, n) :: Gone(s, l)
    ensures Ready(db, Record(db, s, n, None), {}) && InOrder(db, Record(db, s, n, None), busy)
  {
    var c := Change(Installed(db, n), None);
    var s' := Record(db, s, n, None);
    assert s'.changes == s.changes + [c] && ChangedName(db, c) == n;
    forall x, l | 0 <= x < |s'.changes| && DependsOn(db, l, ChangedName(db, s'.changes[x]))
      ensures exists y | 0 <= y < x :: ChangedName(db, s'.changes[y]) == l
    {
      if x < |s.changes| {
        var y :| 0 <= y < x && ChangedName(db, s.changes[y]) == l;
        assert s'.changes[y] == s.changes[y];
      } else {
        assert height(l) > height(n) && l !in busy + {n};
        assert Listed(db, s, l);
        var y :| 0 <= y < |s.changes| && ChangedName(db, s.changes[y]) == l;
        assert s'.changes[y] == s.changes[y];
      }
    }
    forall m | Gone(s', m) && m !in busy && Installed(db, m).Some?
      ensures Listed(db, s', m)
    {
      if m == n {
        assert s'.changes[|s.changes|] == c;
      } else {
        assert Gone(s, m) && Listed(db, s, m);
        var y :| 0 <= y < |s.changes| && ChangedName(db, s.changes[y]) == m;
        assert s'.changes[y] == s.changes[y];
      }
    }
  }

  lemma {:induction false} RepairInOrder(
    db: Db, s: State, n: NameId, i: nat, busy: set<NameId>, height: NameId -> nat)
    requires Ready(db, s, {}) && SingleVersions(db) && Removing(s) && Gone(s, n) && i <= |db.names[n].rdepends|
    requires Acyclic(db, height) && InOrder(db, s, busy) && forall b | b in busy :: height(b) <= height(n)
    ensures InOrder(db, RepairDependants(db, s, {}, n, true, i).0, busy)
    decreases Measure(s, {}), 3, |db.names[n].rdepends| - i
  {
    hide LockName, Measure, MustRepair, InOrder, SingleVersions;
    if i < |db.names[n].rdepends| {
      var m := db.names[n].rdepends[i];
      RepairsDependants(db, s, n, m);
      if !MustRepair(db, s, n, m) {
        RepairInOrder(db, s, n, i + 1, busy, height);
      } else {
        MustRepairCanLock(db, s, n, m);
        LockNameInOrder(db, s, m, busy, height);
        LockNameRemoves(db, s, m);
        var s1 := LockName(db, s, {}, m, None).0;
        BelowMeasure(s1, {}, s, {});
        RepairInOrder(db, s1, n, i + 1, busy, height);
      }
    }
  }

  /** Without dependency cycles, every dependant's removal precedes that of what it depends on. */
  lemma RemovalListsDependantsFirst(db: Db, n: NameId, height: NameId -> nat)
    requires Valid(db) && SingleVersions(db) && Acyclic(db, height) && n < |db.names| && Installed(db, n).Some?
    ensures
      var s := LockDependency(db, Fresh(db), {}, Dependency(n, CONFLICT, None)).0;
      && (forall m | 0 <= m < |s.name| && Reaches(db, m, n) :: Listed(db, s, m))
      && DependantsFirst(db, s)
  {
    hide LockName, SingleVersions, DependsOn, Installed;
    RemovalIsReverseClosure(db, n);
    var s0 := Fresh(db);
    PendingOrNot(db, s0, n);
    assert LockDependency(db, s0, {}, Dependency(n, CONFLICT, None)) == LockName(db, s0, {}, n, None);
    LockNameInOrder(db, s0, n, {}, height);
    var s := LockName(db, s0, {}, n, None).0;
    forall m | 0 <= m < |s.name| && Reaches(db, m, n)
      ensures Listed(db, s, m)
    {
      ReachingIsInstalled(db, m, n);
    }
  }

  lemma ReachingIsInstalled(db: Db, m: NameId, n: NameId)
    requires Valid(db) && Reaches(db, m, n) && n < |db.names| && Installed(db, n).Some?
    ensures m < |db.names| && Installed(db, m).Some?
  {
    var path :| IsPath(db, path) && path[0] == m && path[|path| - 1] == n;
    if |path| > 1 { assert DependsOn(db, path[0], path[1]); }
  }
}
