/** A successful solve selects only packages that are right for what asked for them. */
module SolverSelection {
  import opened Wrappers
  import opened Version
  import opened Solver
  import opened SolverClosure
  import opened SolverTheorems
  import opened SolverChoice

  // ----- Why a name is locked -----

  /** An installed package of `m` does not go with what is selected for `n`. */
  ghost predicate BreaksInstalled(db: Db, s: State, n: NameId, m: NameId)
    requires Ready(db, s, {}) && n < |s.name| && m < |s.name|
  {
    var p := FirstInstalled(db, db.names[m].pkgs);
    p.Some? && Broken(db, s, p.value, n)
  }

  ghost predicate DependsOn(db: Db, s: State, m: NameId, d: Dependency)
    requires Ready(db, s, {})
  {
    m < |s.name| && s.name[m].Settled() && s.name[m].pkg.Some? && d in db.packages[s.name[m].pkg.value].depends
  }

  /** `d` is a request, a dependency of what is selected for one of the names `before`, or requires
      anew a name whose installed package one of them has broken. */
  ghost predicate Demanded(db: Db, requests: seq<Dependency>, s: State, before: seq<NameId>, d: Dependency)
    requires Ready(db, s, {})
  {
    || d in requests
    || (exists m | m in before :: DependsOn(db, s, m, d))
    || (d == Dependency(d.name, REQUIRE, None) && d.name < |s.name| &&
        exists m | m in before && m < |s.name| && s.name[m].Settled() :: BreaksInstalled(db, s, m, d.name))
  }

  ghost predicate RightChoice(
    db: Db, requests: seq<Dependency>, s: State, before: seq<NameId>, n: NameId, p: PkgId)
    requires Ready(db, s, {}) && n < |db.names|
  {
    exists d: Dependency ::
      d.name == n && d.mask != CONFLICT && Demanded(db, requests, s, before, d) && Right(db, d, p)
  }

  /** `order` is a derivation of the selection: it has all the locked names, and each is right for
      something that the names before it, or the requests, demand. */
  ghost predicate AllRight(db: Db, requests: seq<Dependency>, s: State, order: seq<NameId>)
    requires Ready(db, s, {})
  {
    && (forall i | 0 <= i < |order| :: order[i] < |s.name| && s.name[order[i]].Settled())
    && (forall n | 0 <= n < |s.name| && s.name[n].Settled() :: n in order)
    && forall i | 0 <= i < |order| && s.name[order[i]].pkg.Some? ::
         RightChoice(db, requests, s, order[..i], order[i], s.name[order[i]].pkg.value)
  }

  lemma DemandedStays(
    db: Db, requests: seq<Dependency>, s: State, s': State, before: seq<NameId>, d: Dependency)
    requires Ready(db, s, {}) && Ready(db, s', {}) && Stable(s, s') && Demanded(db, requests, s, before, d)
    ensures Demanded(db, requests, s', before, d)
  {
    if m :| m in before && DependsOn(db, s, m, d) {
      assert DependsOn(db, s', m, d);
    } else if d !in requests {
      var m :| m in before && m < |s.name| && s.name[m].Settled() && BreaksInstalled(db, s, m, d.name);
      assert BreaksInstalled(db, s', m, d.name);
    }
  }

  lemma RightStays(
    db: Db, requests: seq<Dependency>, s: State, s': State, before: seq<NameId>, n: NameId, p: PkgId)
    requires Ready(db, s, {}) && Ready(db, s', {}) && Stable(s, s') && n < |db.names|
    requires RightChoice(db, requests, s, before, n, p)
    ensures RightChoice(db, requests, s', before, n, p)
  {
    hide Demanded, Right, Stable;
    var d: Dependency :|
      d.name == n && d.mask != CONFLICT && Demanded(db, requests, s, before, d) && Right(db, d, p);
    DemandedStays(db, requests, s, s', before, d);
  }

  /** The next name of the derivation. */
  lemma LockAsRight(db: Db, requests: seq<Dependency>, s: State, order: seq<NameId>, n: NameId, p: Option<PkgId>)
    requires Ready(db, s, {}) && n < |s.name| && !s.name[n].Settled() && (p.Some? ==> PkgOf(db, n, p.value))
    requires AllRight(db, requests, s, order)
    requires p.Some? ==> RightChoice(db, requests, s, order, n, p.value)
    ensures Ready(db, LockAs(s, n, p), {}) && AllRight(db, requests, LockAs(s, n, p), order + [n])
  {
    hide RightChoice;
    var s1, order1 := LockAs(s, n, p), order + [n];
    forall i | 0 <= i < |order1| && s1.name[order1[i]].pkg.Some?
      ensures RightChoice(db, requests, s1, order1[..i], order1[i], s1.name[order1[i]].pkg.value)
    {
      if i < |order| {
        assert order1[..i] == order[..i] && order1[i] == order[i];
        RightStays(db, requests, s, s1, order[..i], order[i], s.name[order[i]].pkg.value);
      } else {
        assert order1[..i] == order;
        RightStays(db, requests, s, s1, order, n, p.value);
      }
    }
  }

  lemma SameNamesRight(db: Db, requests: seq<Dependency>, s: State, s': State, order: seq<NameId>)
    requires Ready(db, s, {}) && Ready(db, s', {}) && s'.name == s.name && AllRight(db, requests, s, order)
    ensures AllRight(db, requests, s', order)
  {
    hide RightChoice;
    forall i | 0 <= i < |order| && s.name[order[i]].pkg.Some?
      ensures RightChoice(db, requests, s', order[..i], order[i], s.name[order[i]].pkg.value)
    {
      RightStays(db, requests, s, s', order[..i], order[i], s.name[order[i]].pkg.value);
    }
  }

  // ----- The four mutually recursive operations -----

  lemma {:induction false} LockDependencyRight(
    db: Db, requests: seq<Dependency>, s: State, open: set<NameId>, d: Dependency, f: Frame, order: seq<NameId>)
    returns (order': seq<NameId>)
    requires Ready(db, s, open) && d.name < |s.name| && Healthy(db, s, f.(todo := f.todo + {d}))
    requires Doomed(s, f.todo + {d}) || AllRight(db, requests, s, order)
    requires Doomed(s, f.todo + {d}) || (s.name[d.name].Empty? ==> Demanded(db, requests, s, order, d))
    ensures order <= order'
    ensures
      var (s', r) := LockDependency(db, s, open, d);
      r == 0 ==> Doomed(s', f.todo) || AllRight(db, requests, s', order')
    decreases Measure(s, open), 2, 0
  {
    hide Closed, Faithful, Kept, SingleVersions, Demanded, Measure, Choose, Sat, Prune, LockName, AllRight, RightChoice;
    order' := order;
    var (s1, r1) := Prune(db, s, d);
    var n := d.name;
    assert Inv(db, s1, open) && Below(s1, open, s, open);
    hide Rank;
    BelowMeasure(s1, open, s, open);
    if r1 == 0 {
      AlreadyMet(db, s, d, f);
    } else if r1 > 0 {
      assert s.name[n].Empty?;
      var p := Chosen(db, s, d);
      if s1.name[n].Locked? || p.Some? {
        assert MetBy(db, p, d);
        EnterUntouched(db, s, n, p, f, {d});
        assert LockAs(s1, n, p) == LockAs(s, n, p);
        if !Doomed(s, f.todo + {d}) {
          if p.Some? { FirstChoiceIsRight(db, requests, s, open, order, d); }
          LockAsRight(db, requests, s, order, n, p);
        }
        order' := LockNameRight(db, requests, s1, open, n, p, f, order + [n]);
      }
    }
  }

  /** What an untouched name is locked to when it is first demanded. */
  lemma FirstChoiceIsRight(
    db: Db, requests: seq<Dependency>, s: State, open: set<NameId>, order: seq<NameId>, d: Dependency)
    requires Ready(db, s, open) && d.name < |s.name| && s.name[d.name].Empty? && Demanded(db, requests, s, order, d)
    requires Prune(db, s, d).1 > 0 && Chosen(db, s, d).Some?
    ensures RightChoice(db, requests, s, order, d.name, Chosen(db, s, d).value)
  {
    hide Demanded, LockName, Right, Prune, Chosen;
    if d.mask == CONFLICT {
      ConflictLocksNone(db, s, d);
    } else {
      var best := LocksTheRightOne(db, s, open, d);
    }
  }

  lemma ConflictLocksNone(db: Db, s: State, d: Dependency)
    requires Ready(db, s, {}) && d.name < |s.name| && s.name[d.name].Empty? && d.mask == CONFLICT
    ensures Chosen(db, s, d).None?
  {
  }

  lemma {:induction false} FixPackageRight(
    db: Db, requests: seq<Dependency>, s: State, open: set<NameId>, deps: seq<Dependency>, n: NameId, f: Frame,
    order: seq<NameId>)
    returns (order': seq<NameId>)
    requires Ready(db, s, open) && ValidDeps(db, deps) && Healthy(db, s, f.(todo := f.todo + set d | d in deps))
    requires Doomed(s, f.todo + set d | d in deps) ||
             (AllRight(db, requests, s, order) && n in order && forall d | d in deps :: DependsOn(db, s, n, d))
    ensures order <= order'
    ensures
      var (s', r) := FixPackage(db, s, open, deps);
      r == 0 ==> Doomed(s', f.todo) || AllRight(db, requests, s', order')
    decreases Measure(s, open), 3, |deps|
  {
    hide Closed, Faithful, Kept, SingleVersions, Measure, LockDependency, AllRight, DependsOn, Stable;
    var all := set d | d in deps;
    if deps == [] {
      assert f.todo + all == f.todo;
      order' := order;
    } else {
      var rest := set d | d in deps[1..];
      assert all == rest + {deps[0]};
      assert f.todo + all == (f.todo + rest) + {deps[0]};
      var f1 := f.(todo := f.todo + rest);
      assert f1.(todo := f1.todo + {deps[0]}) == f.(todo := f.todo + all);
      LockDependencyHealthy(db, s, open, deps[0], f1);
      order' := LockDependencyRight(db, requests, s, open, deps[0], f1, order);
      var (s1, r1) := LockDependency(db, s, open, deps[0]);
      BelowMeasure(s1, open, s, open);
      if r1 == 0 {
        assert f1.todo == f.todo + set d | d in deps[1..];
        if !Doomed(s1, f1.todo) { DependsOnStays(db, s, s1, n, deps); }
        order' := FixPackageRight(db, requests, s1, open, deps[1..], n, f, order');
      }
    }
  }

  lemma DependsOnStays(db: Db, s: State, s': State, n: NameId, deps: seq<Dependency>)
    requires Ready(db, s, {}) && Ready(db, s', {}) && Stable(s, s') && forall d | d in deps :: DependsOn(db, s, n, d)
    ensures forall d | d in deps :: DependsOn(db, s', n, d)
  {
  }

  lemma {:induction false} RepairDependantsRight(
    db: Db, requests: seq<Dependency>, s: State, open: set<NameId>, n: NameId, p: Option<PkgId>, i: nat, f: Frame,
    order: seq<NameId>)
    returns (order': seq<NameId>)
    requires Ready(db, s, open) && n < |s.name| && i <= |db.names[n].rdepends| && Healthy(db, s, f)
    requires Doomed(s, f.todo) || (s.name[n] == Locked(p, false, false) && AllRight(db, requests, s, order) && n in order)
    ensures order <= order'
    ensures
      var (s', r) := RepairDependants(db, s, open, n, p.None?, i);
      r == 0 ==> Doomed(s', f.todo) || AllRight(db, requests, s', order')
    decreases Measure(s, open), 3, |db.names[n].rdepends| - i
  {
    hide Closed, Faithful, Kept, SingleVersions, Measure, MustRepair, Sat, LockName, LockDependency, AllRight;
    order' := order;
    if i < |db.names[n].rdepends| {
      var m := db.names[n].rdepends[i];
      if !MustRepair(db, s, n, m) {
        order' := RepairDependantsRight(db, requests, s, open, n, p, i + 1, f, order);
      } else {
        MustRepairCanLock(db, s, n, m);
        var (s1, r1) :=
          if p.None? then LockName(db, s, open, m, None)
          else LockDependency(db, s, open, Dependency(m, REQUIRE, None));
        BelowMeasure(s1, open, s, open);
        RepairOneHealthy(db, s, open, n, p, m, f);
        if p.None? {
          order' := DeleteRight(db, requests, s, open, n, m, f, order);
        } else {
          order' := RequireRight(db, requests, s, open, n, p, m, f, order);
        }
        if r1 == 0 { order' := RepairDependantsRight(db, requests, s1, open, n, p, i + 1, f, order'); }
      }
    }
  }

  /** A broken dependant is required anew. */
  lemma {:induction false} RequireRight(
    db: Db, requests: seq<Dependency>, s: State, open: set<NameId>, n: NameId, p: Option<PkgId>, m: NameId, f: Frame,
    order: seq<NameId>)
    returns (order': seq<NameId>)
    requires Ready(db, s, open) && n < |s.name| && m < |s.name| && Healthy(db, s, f) && MustRepair(db, s, n, m)
    requires Doomed(s, f.todo) || (s.name[n] == Locked(p, false, false) && AllRight(db, requests, s, order) && n in order)
    ensures order <= order'
    ensures
      var (s', r) := LockDependency(db, s, open, Dependency(m, REQUIRE, None));
      r == 0 ==> Doomed(s', f.todo) || AllRight(db, requests, s', order')
    decreases Measure(s, open), 2, 1
  {
    hide Closed, Faithful, Kept, SingleVersions, Measure, Sat, LockName, LockDependency, AllRight, Demanded;
    var d := Dependency(m, REQUIRE, None);
    HealthyMoreTodo(db, s, f, d);
    if !Doomed(s, f.todo) && s.name[m].Empty? { BrokenIsDemanded(db, requests, s, order, n, m); }
    order' := LockDependencyRight(db, requests, s, open, d, f, order);
  }

  /** A dependant of what was removed is deleted. */
  lemma {:induction false} DeleteRight(
    db: Db, requests: seq<Dependency>, s: State, open: set<NameId>, n: NameId, m: NameId, f: Frame, order: seq<NameId>)
    returns (order': seq<NameId>)
    requires Ready(db, s, open) && n < |s.name| && m < |s.name| && Healthy(db, s, f) && MustRepair(db, s, n, m)
    requires CanLock(db, s, m, None)
    requires Doomed(s, f.todo) || (s.name[n] == Locked(None, false, false) && AllRight(db, requests, s, order) && n in order)
    ensures order <= order'
    ensures
      var (s', r) := LockName(db, s, open, m, None);
      r == 0 ==> Doomed(s', f.todo) || AllRight(db, requests, s', order')
    decreases Measure(s, open), 2, 1
  {
    hide Closed, Faithful, Kept, SingleVersions, Measure, Sat, LockName, LockDependency, AllRight, Demanded;
    DeleteHealthy(db, s, n, m, f);
    if !Doomed(LockAs(s, m, None), f.todo) { LockAsRight(db, requests, s, order, m, None); }
    order' := LockNameRight(db, requests, s, open, m, None, f, order + [m]);
  }

  lemma BrokenIsDemanded(db: Db, requests: seq<Dependency>, s: State, order: seq<NameId>, n: NameId, m: NameId)
    requires Ready(db, s, {}) && n < |s.name| && m < |s.name| && s.name[n].Settled() && n in order
    requires s.name[m].Empty? && MustRepair(db, s, n, m)
    ensures Demanded(db, requests, s, order, Dependency(m, REQUIRE, None))
  {
    hide Broken;
    assert BreaksInstalled(db, s, n, m);
  }

  lemma {:induction false} LockNameRight(
    db: Db, requests: seq<Dependency>, s: State, open: set<NameId>, n: NameId, p: Option<PkgId>, f: Frame,
    order: seq<NameId>)
    returns (order': seq<NameId>)
    requires Ready(db, s, open) && n < |s.name| && CanLock(db, s, n, p)
    requires Ready(db, LockAs(s, n, p), {}) && Healthy(db, LockAs(s, n, p), Enter(db, f, n, p))
    requires Doomed(LockAs(s, n, p), Enter(db, f, n, p).todo) || n !in f.busy
    requires Doomed(LockAs(s, n, p), Enter(db, f, n, p).todo) ||
             (AllRight(db, requests, LockAs(s, n, p), order) && n in order)
    ensures order <= order'
    ensures
      var (s', r) := LockName(db, s, open, n, p);
      r == 0 ==> Doomed(s', f.todo) || AllRight(db, requests, s', order')
    decreases Measure(s, open), 1, 0
  {
    LockBegins(db, s, open, n, p);
    var s1, open1, f1 := LockAs(s, n, p), OpenWith(open, n, p), Enter(db, f, n, p);
    assert Repaired(db, s1, n, 0);
    hide Closed, Faithful, Repaired, Measure, Installed, KeepsUntouched, Sat, Complete, RepairDependants, AllRight;
    var (s2, r2) :=
      if Installed(db, n).Some? then RepairDependants(db, s1, open1, n, p.None?, 0) else (s1, 0);
    order' := order;
    if Installed(db, n).Some? {
      RepairDependantsHealthy(db, s1, open1, n, p, 0, f1);
      order' := RepairDependantsRight(db, requests, s1, open1, n, p, 0, f1, order);
    }
    if r2 == 0 {
      BelowMeasure(s2, open1, s1, open1);
      assert Healthy(db, s2, f1.(scanning := f.scanning)) by {
        if !Doomed(s2, f1.todo) && SingleVersions(db) { ScanDone(db, s2, n, f.scanning); }
      }
      order' := CompleteRight(db, requests, s2, open, n, p, f, order');
    }
  }

  lemma {:induction false} CompleteRight(
    db: Db, requests: seq<Dependency>, s: State, open: set<NameId>, n: NameId, p: Option<PkgId>, f: Frame,
    order: seq<NameId>)
    returns (order': seq<NameId>)
    requires Ready(db, s, OpenWith(open, n, p)) && n < |s.name| && (p.Some? ==> PkgOf(db, n, p.value) && n !in open)
    requires Healthy(db, s, Enter(db, f, n, p).(scanning := f.scanning))
    requires Doomed(s, f.todo + DepsOf(db, p)) || (s.name[n] == Locked(p, false, false) && n !in f.busy)
    requires Doomed(s, f.todo + DepsOf(db, p)) || (AllRight(db, requests, s, order) && n in order)
    ensures order <= order'
    ensures
      var (s', r) := Complete(db, s, open, n, p);
      r == 0 ==> Doomed(s', f.todo) || AllRight(db, requests, s', order')
    decreases Measure(s, OpenWith(open, n, p)), 4, 0
  {
    hide Closed, Faithful, Kept, SingleVersions, Measure, Installed, Sat, FixPackage, Record, AllRight;
    order' := order;
    if p.None? {
      assert f.todo + DepsOf(db, p) == f.todo;
      LockRecorded(db, s, n, p, f);
      if !Doomed(s, f.todo) { SameNamesRight(db, requests, s, Record(db, s, n, p), order); }
    } else {
      var open1 := OpenWith(open, n, p);
      var deps := db.packages[p.value].depends;
      var f1 := Frame(f.todo, f.busy + {n}, f.scanning);
      assert f1.(todo := f1.todo + set d | d in deps) == Enter(db, f, n, p).(scanning := f.scanning);
      FixPackageHealthy(db, s, open1, deps, f1);
      order' := FixPackageRight(db, requests, s, open1, deps, n, f1, order);
      var (s1, r1) := FixPackage(db, s, open1, deps);
      if r1 == 0 {
        LockRecorded(db, s1, n, p, f);
        if !Doomed(s1, f.todo) { SameNamesRight(db, requests, s1, Record(db, s1, n, p), order'); }
      }
    }
  }

  // ----- Whole solves -----

  lemma {:induction false} LockAllRight(
    db: Db, requests: seq<Dependency>, s: State, deps: seq<Dependency>, order: seq<NameId>)
    returns (order': seq<NameId>)
    requires Ready(db, s, {}) && ValidDeps(db, deps) && Solved(db, s)
    requires AllRight(db, requests, s, order) && forall d | d in deps :: d in requests
    ensures order <= order'
    ensures
      var (s', errors) := LockAll(db, s, deps);
      errors == 0 ==> AllRight(db, requests, s', order')
    decreases deps
  {
    hide LockDependency, AllRight, Closed, Faithful, Kept;
    order' := order;
    if deps != [] {
      LockOneSolved(db, s, deps[0]);
      HealthyMoreTodo(db, s, NO_FRAME, deps[0]);
      order' := LockDependencyRight(db, requests, s, {}, deps[0], NO_FRAME, order);
      var (s1, r1) := LockDependency(db, s, {}, deps[0]);
      if r1 == 0 { order' := LockAllRight(db, requests, s1, deps[1..], order'); }
    }
  }

  /** After a successful solve the selection has a derivation: every selected package is right for a
      request, for a dependency of a package selected before it, or for a name whose installed
      package was broken by one selected before it. */
  lemma SelectionIsRight(db: Db, requests: seq<Dependency>) returns (order: seq<NameId>)
    requires Valid(db) && ValidDeps(db, requests) && LockAll(db, Fresh(db), requests).1 == 0
    ensures AllRight(db, requests, LockAll(db, Fresh(db), requests).0, order)
  {
    FreshSolved(db);
    assert AllRight(db, requests, Fresh(db), []);
    hide LockAll, AllRight;
    order := LockAllRight(db, requests, Fresh(db), requests, []);
  }

  /** Whatever the selection demands of a name, in terms of the selection alone. */
  ghost predicate AsksFor(db: Db, requests: seq<Dependency>, s: State, d: Dependency)
    requires Ready(db, s, {})
  {
    d.mask != CONFLICT &&
    (d in requests || (exists m :: DependsOn(db, s, m, d)) || d == Dependency(d.name, REQUIRE, None))
  }

  lemma WhySelected(db: Db, requests: seq<Dependency>, n: NameId) returns (d: Dependency)
    requires Valid(db) && ValidDeps(db, requests) && LockAll(db, Fresh(db), requests).1 == 0 && n < |db.names|
    requires var s := LockAll(db, Fresh(db), requests).0; s.name[n].Settled() && s.name[n].pkg.Some?
    ensures
      var s := LockAll(db, Fresh(db), requests).0;
      && d.name == n && AsksFor(db, requests, s, d) && Right(db, d, s.name[n].pkg.value)
      && (d in requests || (exists m :: DependsOn(db, s, m, d)) || d == Dependency(n, REQUIRE, None))
  {
    hide LockAll, Right, DependsOn, BreaksInstalled;
    var order := SelectionIsRight(db, requests);
    var s := LockAll(db, Fresh(db), requests).0;
    var i :| 0 <= i < |order| && order[i] == n;
    assert RightChoice(db, requests, s, order[..i], n, s.name[n].pkg.value);
    d :|
      d.name == n && d.mask != CONFLICT && Demanded(db, requests, s, order[..i], d) &&
      Right(db, d, s.name[n].pkg.value);
  }

  /** Without APK_UPGRADE, an installed package that fits all that is asked of its name is not
      exchanged: it is what the solve selects for the name, if it selects anything. */
  lemma FittingInstalledStays(db: Db, requests: seq<Dependency>, n: NameId, p: PkgId)
    requires Valid(db) && ValidDeps(db, requests) && LockAll(db, Fresh(db), requests).1 == 0 && n < |db.names|
    requires Stays(db, Dependency(n, REQUIRE, None), p)
    requires
      var s := LockAll(db, Fresh(db), requests).0;
      && s.name[n].Settled() && s.name[n].pkg.Some?
      && forall d: Dependency | d.name == n && AsksFor(db, requests, s, d) :: Sat(db, p, d)
    ensures LockAll(db, Fresh(db), requests).0.name[n].pkg == Some(p)
    ensures !db.names[n].reinstall ==>
              forall c | c in LockAll(db, Fresh(db), requests).0.changes && ChangeOk(db, c) :: ChangedName(db, c) != n
  {
    hide LockAll, DependsOn, Sat, Eligible, Healthy;
    var d := WhySelected(db, requests, n);
    FitsTogether(db, Dependency(n, REQUIRE, None), d, p);
    FreshSolved(db);
    LockAllSolved(db, Fresh(db), requests);
    OnlyInstalled(db, n, p);
    assert Stays(db, d, p);
    var s := LockAll(db, Fresh(db), requests).0;
    assert s.name[n].pkg == Installed(db, n);
    NoChangeOf(db, s, n);
  }

  lemma FitsTogether(db: Db, d: Dependency, e: Dependency, p: PkgId)
    requires Valid(db) && d.name < |db.names| && e.name == d.name && Eligible(db, d, p) && Sat(db, p, e)
    ensures Eligible(db, e, p)
  {
  }

  lemma OnlyInstalled(db: Db, n: NameId, p: PkgId)
    requires Valid(db) && n < |db.names| && p in db.names[n].pkgs && p < |db.packages| && db.packages[p].installed
    requires forall q | q in db.names[n].pkgs && db.packages[q].installed :: q == p
    ensures Installed(db, n) == Some(p)
  {
    hide LastInstalled;
  }

  /** A name that keeps its installed package is not in the list of changes. */
  lemma NoChangeOf(db: Db, s: State, n: NameId)
    requires Ready(db, s, {}) && Solved(db, s) && n < |s.name|
    ensures s.name[n].Settled() && s.name[n].pkg == Installed(db, n) && !db.names[n].reinstall ==>
              forall c | c in s.changes && ChangeOk(db, c) :: ChangedName(db, c) != n
  {
    forall c | c in s.changes && ChangeOk(db, c) && ChangedName(db, c) == n
      ensures !(s.name[n].Settled() && s.name[n].pkg == Installed(db, n) && !db.names[n].reinstall)
    {
      var i :| 0 <= i < |s.changes| && s.changes[i] == c;
      assert Changes(db, s, s.changes[i], n);
    }
  }

  /** A name that is to have the best package, and whose version neither a request nor a selected
      package restricts, gets the newest one that can be installed. */
  lemma UnrestrictedGetsNewest(db: Db, requests: seq<Dependency>, n: NameId)
    requires Valid(db) && ValidDeps(db, requests) && LockAll(db, Fresh(db), requests).1 == 0
    requires n < |db.names| && Versioned(db, db.names[n].pkgs) && BestWanted(db, Dependency(n, REQUIRE, None))
    requires
      var s := LockAll(db, Fresh(db), requests).0;
      && s.name[n].Settled() && s.name[n].pkg.Some?
      && forall d: Dependency | d.name == n && AsksFor(db, requests, s, d) :: d == Dependency(n, REQUIRE, None)
    ensures Best(db, Dependency(n, REQUIRE, None), LockAll(db, Fresh(db), requests).0.name[n].pkg.value)
  {
    hide LockAll, Best, DependsOn, BestWanted, Eligible;
    var d := WhySelected(db, requests, n);
  }

  /** A name that is first seen by a request gets what is right for that request, whatever comes after. */
  lemma FirstSeenIsRight(db: Db, earlier: seq<Dependency>, d: Dependency, later: seq<Dependency>)
    requires Valid(db) && ValidDeps(db, earlier) && ValidDeps(db, later) && d.name < |db.names| && d.mask != CONFLICT
    requires LockAll(db, Fresh(db), earlier).1 == 0 && LockAll(db, Fresh(db), earlier).0.name[d.name].Empty?
    requires LockDependency(db, LockAll(db, Fresh(db), earlier).0, {}, d).1 == 0
    requires LockAll(db, LockDependency(db, LockAll(db, Fresh(db), earlier).0, {}, d).0, later).1 == 0
    ensures
      var s := LockAll(db, LockDependency(db, LockAll(db, Fresh(db), earlier).0, {}, d).0, later).0;
      s.name[d.name].Selected().Some? && Right(db, d, s.name[d.name].Selected().value)
  {
    hide LockName, Healthy, Prune, Right, LockDependency, LockAll;
    FreshSolved(db);
    LockAllSolved(db, Fresh(db), earlier);
    var s := LockAll(db, Fresh(db), earlier).0;
    LockOneSolved(db, s, d);
    LockAllSolved(db, LockDependency(db, s, {}, d).0, later);
    var use := LocksTheRightOne(db, s, {}, d);
    var n := d.name;
    var s1 := s.Set(n, Prune(db, s, d).0.name[n]);
    assert NO_FRAME.(todo := NO_FRAME.todo + {}) == NO_FRAME;
    EnterUntouched(db, s, n, use, NO_FRAME, {});
    assert LockAs(s1, n, use) == LockAs(s, n, use);
    LockNameHealthy(db, s1, {}, n, use, NO_FRAME);
    assert LockAs(s, n, use).name[n].Settled();
  }
}
