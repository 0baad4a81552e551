/** When a solve succeeds for certain: nothing that is asked for excludes a candidate. */
module SolverSuccess {
  import opened Wrappers
  import opened Version
  import opened Solver
  import opened SolverClosure
  import opened SolverTheorems
  import opened SolverChoice

  /** The name has a package that can be had, and all its packages fit. */
  ghost predicate Easy(db: Db, d: Dependency)
    requires Valid(db)
  {
    && d.name < |db.names| && d.mask != CONFLICT
    && (exists p :: Eligible(db, d, p))
    && forall p | PkgOf(db, d.name, p) :: Sat(db, p, d)
  }

  ghost predicate AllEasy(db: Db)
    requires Valid(db)
  {
    forall p, d | 0 <= p < |db.packages| && d in db.packages[p].depends :: Easy(db, d)
  }

  /** Nothing has been removed or given up. */
  ghost predicate Provided(s: State) {
    forall n | 0 <= n < |s.name| :: s.name[n].Empty? || (s.name[n].Settled() && s.name[n].pkg.Some?)
  }

  lemma LockAsProvides(s: State, n: NameId, p: Option<PkgId>)
    requires Provided(s) && n < |s.name| && p.Some?
    ensures Provided(LockAs(s, n, p))
  {
  }

  lemma SettledFits(db: Db, s: State, d: Dependency)
    requires Ready(db, s, {}) && Easy(db, d) && Provided(s) && !s.name[d.name].Empty?
    ensures Prune(db, s, d) == (s, 0)
  {
    hide Sat;
    assert s.Set(d.name, s.name[d.name]) == s;
  }

  /** Whatever is selected for a name breaks nobody. */
  lemma BreaksNobody(db: Db, s: State, n: NameId, m: NameId)
    requires Ready(db, s, {}) && AllEasy(db) && Provided(s) && n < |s.name| && m < |s.name| && s.name[n].Settled()
    ensures !MustRepair(db, s, n, m)
  {
    hide Sat;
    var p := Representative(db, s, m);
    if p.Some? {
      forall k | 0 <= k < |db.packages[p.value].depends| && db.packages[p.value].depends[k].name == n
        ensures MetBy(db, s.name[n].Selected(), db.packages[p.value].depends[k])
      {
        assert Easy(db, db.packages[p.value].depends[k]);
      }
    }
  }

  // ----- The four mutually recursive operations -----

  lemma {:induction false} LockDependencySucceeds(db: Db, s: State, open: set<NameId>, d: Dependency)
    requires Ready(db, s, open) && AllEasy(db) && Provided(s) && Easy(db, d)
    ensures
      var (s', r) := LockDependency(db, s, open, d);
      r == 0 && Provided(s')
    decreases Measure(s, open), 2, 0
  {
    hide Measure, Sat, Prune, LockName, Eligible, AllEasy, Right;
    var (s1, r1) := Prune(db, s, d);
    if s.name[d.name].Empty? {
      var use := LocksTheRightOne(db, s, open, d);
      var p :| Eligible(db, d, p);
      var s2 := s.Set(d.name, s1.name[d.name]);
      assert Below(s2, open, s, open) by { PrunedBelow(db, s, open, d); }
      BelowMeasure(s2, open, s, open);
      LockAsProvides(s, d.name, use);
      assert LockAs(s2, d.name, use) == LockAs(s, d.name, use);
      LockNameSucceeds(db, s2, open, d.name, use);
    } else {
      SettledFits(db, s, d);
    }
  }

  lemma PrunedBelow(db: Db, s: State, open: set<NameId>, d: Dependency)
    requires Ready(db, s, open) && d.name < |s.name| && s.name[d.name].Empty?
    ensures Below(s.Set(d.name, Prune(db, s, d).0.name[d.name]), open, s, open)
  {
    hide Prune;
  }

  lemma {:induction false} FixPackageSucceeds(db: Db, s: State, open: set<NameId>, deps: seq<Dependency>)
    requires Ready(db, s, open) && ValidDeps(db, deps) && AllEasy(db) && Provided(s)
    requires forall d | d in deps :: Easy(db, d)
    ensures
      var (s', r) := FixPackage(db, s, open, deps);
      r == 0 && Provided(s')
    decreases Measure(s, open), 3, |deps|
  {
    hide Measure, LockDependency, Easy, AllEasy, Provided;
    if deps != [] {
      LockDependencySucceeds(db, s, open, deps[0]);
      var s1 := LockDependency(db, s, open, deps[0]).0;
      BelowMeasure(s1, open, s, open);
      FixPackageSucceeds(db, s1, open, deps[1..]);
    }
  }

  lemma {:induction false} RepairsNobody(db: Db, s: State, open: set<NameId>, n: NameId, i: nat)
    requires Ready(db, s, open) && AllEasy(db) && Provided(s) && n < |s.name| && s.name[n].Settled()
    requires i <= |db.names[n].rdepends|
    ensures RepairDependants(db, s, open, n, false, i) == (s, 0)
    decreases |db.names[n].rdepends| - i
  {
    hide MustRepair, LockName, LockDependency, AllEasy, Provided;
    if i < |db.names[n].rdepends| {
      BreaksNobody(db, s, n, db.names[n].rdepends[i]);
      RepairsNobody(db, s, open, n, i + 1);
    }
  }

  lemma {:induction false} LockNameSucceeds(db: Db, s: State, open: set<NameId>, n: NameId, p: Option<PkgId>)
    requires Ready(db, s, open) && n < |s.name| && CanLock(db, s, n, p) && p.Some?
    requires AllEasy(db) && Provided(LockAs(s, n, p))
    ensures
      var (s', r) := LockName(db, s, open, n, p);
      r == 0 && Provided(s')
    decreases Measure(s, open), 1, 0
  {
    LockBegins(db, s, open, n, p);
    hide Measure, FixPackage, RepairDependants, Installed;
    var s1, open1 := LockAs(s, n, p), OpenWith(open, n, p);
    var deps := db.packages[p.value].depends;
    RepairsNobody(db, s1, open1, n, 0);
    assert forall d | d in deps :: Easy(db, d);
    hide AllEasy, Easy;
    FixPackageSucceeds(db, s1, open1, deps);
  }

  /** If every name that is asked for, by a request or by any package, has a package to be had and
      all its packages fit, then every request succeeds, whatever is installed and however the
      dependencies run in circles. */
  lemma {:induction false} EasySolveSucceeds(db: Db, s: State, requests: seq<Dependency>)
    requires Ready(db, s, {}) && ValidDeps(db, requests) && AllEasy(db) && Provided(s)
    requires forall d | d in requests :: Easy(db, d)
    ensures
      var (s', errors) := LockAll(db, s, requests);
      errors == 0 && Provided(s')
    decreases requests
  {
    hide LockDependency, Easy, AllEasy, Provided;
    if requests != [] {
      LockDependencySucceeds(db, s, {}, requests[0]);
      EasySolveSucceeds(db, LockDependency(db, s, {}, requests[0]).0, requests[1..]);
    }
  }
}
