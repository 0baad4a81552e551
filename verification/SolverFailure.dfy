/** What a request that fails leaves for the report of errors. */
module SolverFailure {
  import opened Wrappers
  import opened Version
  import opened Solver
  import opened SolverClosure
  import opened SolverChoice

  /** A package that cannot be locked, because of its dependencies or its dependants, is the last on
      the list of conflicts, and its name is in error, so that every later request for it fails. */
  lemma FailedPackageIsReported(db: Db, s: State, open: set<NameId>, n: NameId, p: PkgId)
    requires Ready(db, s, open) && n < |s.name| && CanLock(db, s, n, Some(p))
    requires LockName(db, s, open, n, Some(p)).1 != 0
    ensures
      var s' := LockName(db, s, open, n, Some(p)).0;
      && s'.name[n] == Locked(Some(p), false, true)
      && s'.conflicts != [] && s'.conflicts[|s'.conflicts| - 1] == p
    ensures
      var s' := LockName(db, s, open, n, Some(p)).0;
      forall d: Dependency | d.name == n :: LockDependency(db, s', open, d).1 == -1
  {
    LockBegins(db, s, open, n, Some(p));
    hide Measure, RepairDependants, FixPackage, Installed;
    var s' := LockName(db, s, open, n, Some(p)).0;
    forall d: Dependency | d.name == n
      ensures LockDependency(db, s', open, d).1 == -1
    {
      ErrorStays(db, s', open, d);
    }
  }

  lemma ErrorStays(db: Db, s: State, open: set<NameId>, d: Dependency)
    requires Ready(db, s, open) && d.name < |s.name| && s.name[d.name].Locked? && s.name[d.name].error
    ensures LockDependency(db, s, open, d) == (s, -1)
  {
  }

  /** A name for which there is no package to be had is on the list of missing names, unless there are
      several that fit of which none can be had. */
  lemma MissingNameIsReported(db: Db, s: State, open: set<NameId>, d: Dependency)
    requires Ready(db, s, open) && d.name < |s.name| && s.name[d.name].Empty? && d.mask != CONFLICT
    requires forall p: PkgId :: !Eligible(db, d, p)
    ensures
      var (s', r) := LockDependency(db, s, open, d);
      && r == -1
      && if s'.name[d.name].Choices? then
           |s'.name[d.name].pkgs| >= 2 && forall p | p in s'.name[d.name].pkgs :: Sat(db, p, d)
         else s'.missing == s.missing + [d.name] && s'.name[d.name].Locked? && s'.name[d.name].pkg.None?
  {
    hide Eligible, LockName, Right, Sat;
    var use := LocksTheRightOne(db, s, open, d);
    if use.Some? { assert Right(db, d, use.value); RightIsEligible(db, d, use.value); }
  }

  lemma RightIsEligible(db: Db, d: Dependency, p: PkgId)
    requires Valid(db) && d.name < |db.names| && Right(db, d, p)
    ensures Eligible(db, d, p)
  {
  }
}
