/** Into an empty system, dependencies are installed before the packages that need them. */
module SolverInstall {
  import opened Wrappers
  import opened Version
  import opened Solver
  import opened SolverClosure

  ghost predicate NothingInstalled(db: Db)
    requires Valid(db)
  {
    forall n | 0 <= n < |db.names| :: Installed(db, n).None?
  }

  /** `height` witnesses that the dependencies of all packages are acyclic. */
  ghost predicate AcyclicPackages(db: Db, height: NameId -> nat)
    requires Valid(db)
  {
    forall p | 0 <= p < |db.packages| :: AcyclicDeps(db.packages[p].depends, height(db.packages[p].name), height)
  }

  ghost predicate AcyclicDeps(deps: seq<Dependency>, bound: nat, height: NameId -> nat) {
    forall d | d in deps && d.mask != CONFLICT :: height(d.name) < bound
  }

  ghost predicate ListedBefore(db: Db, s: State, n: NameId, x: nat)
    requires Ready(db, s, {}) && x <= |s.changes|
  {
    exists y | 0 <= y < x :: ChangedName(db, s.changes[y]) == n
  }

  /** Every change installs a package whose dependencies come earlier in the list. */
  ghost predicate DependenciesFirst(db: Db, s: State)
    requires Ready(db, s, {})
  {
    forall x | 0 <= x < |s.changes| && s.changes[x].newpkg.Some? ::
      forall d | d in db.packages[s.changes[x].newpkg.value].depends && d.mask != CONFLICT ::
        ListedBefore(db, s, d.name, x)
  }

  ghost predicate Provided(s: State, n: NameId) {
    n < |s.name| && s.name[n].Settled() && s.name[n].pkg.Some?
  }

  ghost predicate Ordered(db: Db, s: State, busy: set<NameId>)
    requires Ready(db, s, {})
  {
    && DependenciesFirst(db, s)
    && forall n | Provided(s, n) && n !in busy :: ListedBefore(db, s, n, |s.changes|)
  }

  ghost predicate Above(busy: set<NameId>, bound: nat, height: NameId -> nat) {
    forall b | b in busy :: height(b) >= bound
  }

  lemma {:induction false} LockDependencyOrdered(
    db: Db, s: State, open: set<NameId>, d: Dependency, busy: set<NameId>, height: NameId -> nat)
    requires Ready(db, s, open) && NothingInstalled(db) && AcyclicPackages(db, height) && d.name < |s.name|
    requires Ordered(db, s, busy) && (d.mask != CONFLICT ==> Above(busy, height(d.name) + 1, height))
    ensures
      var (s', r) := LockDependency(db, s, open, d);
      r == 0 ==> Ordered(db, s', busy) && Stable(s, s') && (d.mask != CONFLICT ==> Provided(s', d.name))
    decreases Measure(s, open), 2, 0
  {
    hide Prune, Measure, Ordered, NothingInstalled, AcyclicPackages, Choose;
    var (s1, r1) := Prune(db, s, d);
    var n := d.name;
    assert Inv(db, s1, open) && Below(s1, open, s, open);
    BelowMeasure(s1, open, s, open);
    if r1 > 0 {
      var p := match s1.name[n] case Locked(q, _, _) => q case Choices(c) => Choose(db, n, c);
      if s1.name[n].Locked? || p.Some? {
        assert MetBy(db, p, d);
        assert p.Some? <==> d.mask != CONFLICT;
        UnsettledOrdered(db, s, s1, n, busy);
        LockNameOrdered(db, s1, open, n, p, busy, height);
      }
    }
  }

  lemma UnsettledOrdered(db: Db, s: State, s1: State, n: NameId, busy: set<NameId>)
    requires Ready(db, s, {}) && Ready(db, s1, {}) && n < |s.name| && s1 == s.Set(n, s1.name[n]) && s1.name[n].Unlocked()
    requires Ordered(db, s, busy)
    ensures Ordered(db, s1, busy)
  {
  }

  lemma {:induction false} FixPackageOrdered(
    db: Db, s: State, open: set<NameId>, deps: seq<Dependency>, busy: set<NameId>, bound: nat, height: NameId -> nat)
    requires Ready(db, s, open) && NothingInstalled(db) && AcyclicPackages(db, height) && ValidDeps(db, deps)
    requires Ordered(db, s, busy) && AcyclicDeps(deps, bound, height) && Above(busy, bound, height)
    ensures
      var (s', r) := FixPackage(db, s, open, deps);
      r == 0 ==> Ordered(db, s', busy) && Stable(s, s') &&
                 forall d | d in deps && d.mask != CONFLICT :: Provided(s', d.name)
    decreases Measure(s, open), 3, |deps|
  {
    hide LockDependency, Measure, Ordered, NothingInstalled, AcyclicPackages;
    if deps != [] {
      LockDependencyOrdered(db, s, open, deps[0], busy, height);
      var (s1, r1) := LockDependency(db, s, open, deps[0]);
      BelowMeasure(s1, open, s, open);
      if r1 == 0 { FixPackageOrdered(db, s1, open, deps[1..], busy, bound, height); }
    }
  }

  lemma {:induction false} LockNameOrdered(
    db: Db, s: State, open: set<NameId>, n: NameId, p: Option<PkgId>, busy: set<NameId>, height: NameId -> nat)
    requires Ready(db, s, open) && NothingInstalled(db) && AcyclicPackages(db, height)
    requires n < |s.name| && s.name[n].Unlocked() && CanLock(db, s, n, p)
    requires Ordered(db, s, busy) && (p.Some? ==> Above(busy, height(n) + 1, height))
    ensures
      var (s', r) := LockName(db, s, open, n, p);
      r == 0 ==> Ordered(db, s', busy) && Stable(LockAs(s, n, p), s')
    decreases Measure(s, open), 1, 0
  {
    hide FixPackage, Measure, DependenciesFirst, ListedBefore;
    LockBegins(db, s, open, n, p);
    var s1, open1 := LockAs(s, n, p), OpenWith(open, n, p);
    LockedOrdered(db, s, n, p, busy);
    assert LockName(db, s, open, n, p) == Complete(db, s1, open, n, p);
    if p.None? {
      assert Record(db, s1, n, p) == s1;
    } else {
      var deps := db.packages[p.value].depends;
      FixPackageOrdered(db, s1, open1, deps, busy + {n}, height(n), height);
      var (s2, r2) := FixPackage(db, s1, open1, deps);
      if r2 == 0 { RecordOrdered(db, s2, n, p.value, busy, height); }
    }
  }

  lemma LockedOrdered(db: Db, s: State, n: NameId, p: Option<PkgId>, busy: set<NameId>)
    requires Ready(db, s, {}) && n < |s.name| && CanLock(db, s, n, p) && Ordered(db, s, busy)
    ensures Ready(db, LockAs(s, n, p), {}) && Ordered(db, LockAs(s, n, p), if p.Some? then busy + {n} else busy)
  {
  }

  lemma RecordOrdered(db: Db, s: State, n: NameId, p: PkgId, busy: set<NameId>, height: NameId -> nat)
    requires Ready(db, s, {}) && NothingInstalled(db) && AcyclicPackages(db, height) && n < |s.name| && PkgOf(db, n, p)
    requires Ordered(db, s, busy + {n}) && Above(busy, height(n) + 1, height)
    requires forall d | d in db.packages[p].depends && d.mask != CONFLICT :: Provided(s, d.name)
    ensures Ready(db, Record(db, s, n, Some(p)), {}) && Ordered(db, Record(db, s, n, Some(p)), busy)
  {
    var s' := Record(db, s, n, Some(p));
    var c := Change(None, Some(p));
    assert s'.changes == s.changes + [c] && ChangedName(db, c) == n;
    assert forall m: NameId, x: nat | x <= |s.changes| && ListedBefore(db, s, m, x) :: ListedBefore(db, s', m, x) by {
      forall m: NameId, x: nat | x <= |s.changes| && ListedBefore(db, s, m, x)
        ensures ListedBefore(db, s', m, x)
      {
        var y :| 0 <= y < x && ChangedName(db, s.changes[y]) == m;
        assert s'.changes[y] == s.changes[y];
      }
    }
    forall m | Provided(s', m) && m !in busy
      ensures ListedBefore(db, s', m, |s'.changes|)
    {
      if m == n {
        assert s'.changes[|s.changes|] == c;
      } else {
        assert Provided(s, m) && ListedBefore(db, s, m, |s.changes|);
        assert ListedBefore(db, s', m, |s.changes|);
      }
    }
    forall x, d | 0 <= x < |s'.changes| && s'.changes[x].newpkg.Some? &&
                  d in db.packages[s'.changes[x].newpkg.value].depends && d.mask != CONFLICT
      ensures ListedBefore(db, s', d.name, x)
    {
      if x < |s.changes| {
        assert ListedBefore(db, s, d.name, x);
      } else {
        assert AcyclicDeps(db.packages[p].depends, height(n), height);
        assert Provided(s, d.name) && d.name !in busy + {n};
        assert ListedBefore(db, s, d.name, |s.changes|);
      }
    }
  }

  lemma {:induction false} LockAllOrdered(db: Db, s: State, deps: seq<Dependency>, height: NameId -> nat)
    requires Ready(db, s, {}) && NothingInstalled(db) && AcyclicPackages(db, height) && ValidDeps(db, deps)
    requires Ordered(db, s, {})
    ensures var (s', errors) := LockAll(db, s, deps); errors == 0 ==> DependenciesFirst(db, s')
    decreases deps
  {
    hide LockDependency;
    if deps != [] {
      LockDependencyOrdered(db, s, {}, deps[0], {}, height);
      var (s1, r1) := LockDependency(db, s, {}, deps[0]);
      if r1 == 0 { LockAllOrdered(db, s1, deps[1..], height); }
    }
  }

  lemma InstallListsDependenciesFirst(db: Db, requests: seq<Dependency>, height: NameId -> nat)
    requires Valid(db) && NothingInstalled(db) && AcyclicPackages(db, height) && ValidDeps(db, requests)
    requires LockAll(db, Fresh(db), requests).1 == 0
    ensures DependenciesFirst(db, LockAll(db, Fresh(db), requests).0)
  {
    hide LockAll;
    LockAllOrdered(db, Fresh(db), requests, height);
  }
}
