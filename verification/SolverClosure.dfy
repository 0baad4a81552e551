/** A successful solve is closed, final, faithfully listed, and keeps the installed set consistent.

    The recursion can delete a name that is still being locked further up the call stack.  The
    invariant therefore speaks of what the open calls still have to do (a Frame): either the state
    is healthy apart from that, or it is doomed - some open call still has to require a name that
    will not be provided, and so will fail. */
module SolverClosure {
  import opened Wrappers
  import opened Version
  import opened Solver

  /** `todo`: dependencies that open calls have yet to lock.  `busy`: names being locked whose
      change is not recorded yet.  `scanning`: those whose dependants are still being repaired. */
  datatype Frame = Frame(todo: set<Dependency>, busy: set<NameId>, scanning: set<NameId>)

  const NO_FRAME := Frame({}, {}, {})

  ghost predicate Ready(db: Db, s: State, open: set<NameId>) { Valid(db) && Inv(db, s, open) }

  /** The final choice made for the name of `d` satisfies it. */
  ghost predicate Met(db: Db, s: State, d: Dependency)
    requires Ready(db, s, {})
  {
    d.name < |s.name| && s.name[d.name].Settled() && MetBy(db, s.name[d.name].pkg, d)
  }

  ghost predicate Clean(s: State) {
    forall n | 0 <= n < |s.name| :: s.name[n].Empty? || s.name[n].Settled()
  }

  ghost predicate DoomedBy(s: State, d: Dependency) {
    d.mask != CONFLICT && d.name < |s.name| && s.name[d.name].Bad()
  }

  ghost predicate Doomed(s: State, todo: set<Dependency>) {
    exists d | d in todo :: DoomedBy(s, d)
  }

  /** Every dependency of every selected package is met, or still on somebody's list. */
  ghost predicate Closed(db: Db, s: State, todo: set<Dependency>)
    requires Ready(db, s, {})
  {
    forall n | 0 <= n < |s.name| && s.name[n].Settled() && s.name[n].pkg.Some? ::
      forall d | d in db.packages[s.name[n].pkg.value].depends :: d in todo || Met(db, s, d)
  }

  // ----- The change list -----

  ghost predicate Changes(db: Db, s: State, c: Change, n: NameId)
    requires Ready(db, s, {})
  {
    && n < |s.name| && s.name[n].Settled()
    && c == Change(Installed(db, n), s.name[n].pkg)
    && (c.oldpkg != c.newpkg || (c.newpkg.Some? && db.names[n].reinstall))
  }

  ghost predicate Unchanged(db: Db, s: State, n: NameId)
    requires Ready(db, s, {}) && n < |s.name|
  {
    Installed(db, n) == s.name[n].Selected() && (s.name[n].Selected().Some? ==> !db.names[n].reinstall)
  }

  /** The name that a change is about. */
  function ChangedName(db: Db, c: Change): (n: NameId)
    requires ChangeOk(db, c)
  {
    if c.newpkg.Some? then db.packages[c.newpkg.value].name else db.packages[c.oldpkg.value].name
  }

  /** One change per name, from the installed package to the selected one, and a change for
      every settled name that needs one. */
  ghost predicate Faithful(db: Db, s: State, busy: set<NameId>)
    requires Ready(db, s, {})
  {
    && (forall i | 0 <= i < |s.changes| ::
          && Changes(db, s, s.changes[i], ChangedName(db, s.changes[i]))
          && ChangedName(db, s.changes[i]) !in busy)
    && (forall i, j | 0 <= i < j < |s.changes| ::
          ChangedName(db, s.changes[i]) != ChangedName(db, s.changes[j]))
    && (forall n | 0 <= n < |s.name| && s.name[n].Settled() && n !in busy ::
          Unchanged(db, s, n) || Listed(db, s, n))
    && (forall n | n in busy :: n < |s.name| && s.name[n].Settled())
  }

  ghost predicate Listed(db: Db, s: State, n: NameId)
    requires Ready(db, s, {})
  {
    exists i | 0 <= i < |s.changes| :: ChangedName(db, s.changes[i]) == n
  }

  // ----- The installed set -----

  /** One installed version per name. */
  ghost predicate SingleVersions(db: Db)
    requires Valid(db)
  {
    forall n | 0 <= n < |db.names| :: FirstInstalled(db, db.names[n].pkgs) == Installed(db, n)
  }

  /** Every dependency of an installed package is met, too (conflicts aside). */
  ghost predicate Consistent(db: Db)
    requires Valid(db)
  {
    && SingleVersions(db)
    && forall n | 0 <= n < |db.names| && Installed(db, n).Some? ::
         forall d | d in db.packages[Installed(db, n).value].depends && d.mask != CONFLICT ::
           d.name < |db.names| && MetBy(db, Installed(db, d.name), d)
  }

  /** The dependants of `d`'s name are looked at when it is locked, if it had an installed package:
      those in its list. */
  ghost predicate Rechecked(db: Db, n: NameId, d: Dependency)
    requires Valid(db) && d.name < |db.names|
  {
    n in db.names[d.name].rdepends && Installed(db, d.name).Some?
  }

  /** The choice made for `m` breaks no installed package that the solve has not touched. */
  ghost predicate KeepsUntouched(db: Db, s: State, m: NameId)
    requires Ready(db, s, {}) && m < |s.name|
  {
    forall n | 0 <= n < |s.name| && !s.name[n].Locked? && Installed(db, n).Some? ::
      forall d | d in db.packages[Installed(db, n).value].depends && d.name == m && Rechecked(db, n, d) ::
        MetBy(db, s.name[m].Selected(), d)
  }

  ghost predicate Kept(db: Db, s: State, scanning: set<NameId>)
    requires Ready(db, s, {})
  {
    forall m | 0 <= m < |s.name| && s.name[m].Settled() && m !in scanning :: KeepsUntouched(db, s, m)
  }

  // ----- The invariant -----

  ghost predicate Healthy(db: Db, s: State, f: Frame)
    requires Ready(db, s, {})
  {
    && Clean(s)
    && (Doomed(s, f.todo) ||
        (Closed(db, s, f.todo) && Faithful(db, s, f.busy) && (SingleVersions(db) ==> Kept(db, s, f.scanning))))
  }

  ghost predicate Stable(s: State, s': State) {
    |s'.name| == |s.name| && forall n | 0 <= n < |s.name| && s.name[n].Settled() :: s'.name[n] == s.name[n]
  }

  /** What a call that returns 0 guarantees: health, and unless doomed nothing settled has moved.
      A caller that was doomed stays so. */
  ghost predicate Outcome(db: Db, s: State, todo: set<Dependency>, s': State, f: Frame)
    requires Ready(db, s', {})
  {
    Healthy(db, s', f) && (Doomed(s', f.todo) || (!Doomed(s, todo) && Stable(s, s')))
  }

  function Enter(db: Db, f: Frame, n: NameId, p: Option<PkgId>): Frame
    requires p.Some? ==> p.value < |db.packages|
  {
    Frame(f.todo + DepsOf(db, p), f.busy + {n}, f.scanning + {n})
  }

  function DepsOf(db: Db, p: Option<PkgId>): set<Dependency>
    requires p.Some? ==> p.value < |db.packages|
  {
    if p.Some? then (set d | d in db.packages[p.value].depends) else {}
  }

  function LockAs(s: State, n: NameId, p: Option<PkgId>): State
    requires n < |s.name|
  {
    s.Set(n, Locked(p, false, false))
  }

  /** Locking a name that was not touched before, which meets the dependencies in `met`. */
  lemma EnterUntouched(db: Db, s: State, n: NameId, p: Option<PkgId>, f: Frame, met: set<Dependency>)
    requires Ready(db, s, {}) && n < |s.name| && s.name[n].Empty? && (p.Some? ==> PkgOf(db, n, p.value))
    requires Healthy(db, s, f.(todo := f.todo + met))
    requires forall d | d in met :: d.name == n && MetBy(db, p, d)
    ensures Ready(db, LockAs(s, n, p), {}) && Healthy(db, LockAs(s, n, p), Enter(db, f, n, p))
    ensures if Doomed(s, f.todo + met) then Doomed(LockAs(s, n, p), Enter(db, f, n, p).todo) else n !in f.busy
  {
    var s1, f1 := LockAs(s, n, p), Enter(db, f, n, p);
    if Doomed(s, f.todo + met) {
      var d :| d in f.todo + met && DoomedBy(s, d);
      assert DoomedBy(s1, d);
    } else {
      EnterClosed(db, s, n, p, f.todo, met);
      EnterFaithful(db, s, n, p, f.busy);
      if SingleVersions(db) { EnterKept(db, s, n, p, f.scanning); }
    }
  }

  lemma EnterClosed(db: Db, s: State, n: NameId, p: Option<PkgId>, todo: set<Dependency>, met: set<Dependency>)
    requires Ready(db, s, {}) && n < |s.name| && s.name[n].Empty? && (p.Some? ==> PkgOf(db, n, p.value))
    requires Closed(db, s, todo + met)
    requires forall d | d in met :: d.name == n && MetBy(db, p, d)
    ensures Ready(db, LockAs(s, n, p), {}) && Closed(db, LockAs(s, n, p), todo + DepsOf(db, p))
  {
    var s1 := LockAs(s, n, p);
    forall m, d | 0 <= m < |s.name| && s1.name[m].Settled() && s1.name[m].pkg.Some? &&
                  d in db.packages[s1.name[m].pkg.value].depends
      ensures d in todo + DepsOf(db, p) || Met(db, s1, d)
    {
      if m != n { assert d in todo + met || Met(db, s, d); }
    }
  }

  lemma EnterFaithful(db: Db, s: State, n: NameId, p: Option<PkgId>, busy: set<NameId>)
    requires Ready(db, s, {}) && n < |s.name| && s.name[n].Empty? && (p.Some? ==> PkgOf(db, n, p.value))
    requires Faithful(db, s, busy)
    ensures Ready(db, LockAs(s, n, p), {}) && Faithful(db, LockAs(s, n, p), busy + {n}) && n !in busy
  {
    var s1 := LockAs(s, n, p);
    forall m | 0 <= m < |s1.name| && s1.name[m].Settled() && m !in busy + {n}
      ensures Unchanged(db, s1, m) || Listed(db, s1, m)
    {
      assert Unchanged(db, s, m) || Listed(db, s, m);
    }
  }

  lemma EnterKept(db: Db, s: State, n: NameId, p: Option<PkgId>, scanning: set<NameId>)
    requires Ready(db, s, {}) && n < |s.name| && s.name[n].Empty? && (p.Some? ==> PkgOf(db, n, p.value))
    requires Kept(db, s, scanning)
    ensures Ready(db, LockAs(s, n, p), {}) && Kept(db, LockAs(s, n, p), scanning + {n})
  {
    var s1 := LockAs(s, n, p);
    forall m | 0 <= m < |s1.name| && s1.name[m].Settled() && m !in scanning + {n}
      ensures KeepsUntouched(db, s1, m)
    {
      assert KeepsUntouched(db, s, m);
    }
  }

  // ----- The four mutually recursive operations -----

  lemma {:induction false} LockDependencyHealthy(db: Db, s: State, open: set<NameId>, d: Dependency, f: Frame)
    requires Ready(db, s, open) && d.name < |s.name|
    requires Healthy(db, s, f.(todo := f.todo + {d}))
    ensures
      var (s', r) := LockDependency(db, s, open, d);
      r == 0 ==> Outcome(db, s, f.todo + {d}, s', f) && (Doomed(s', f.todo) || Met(db, s', d))
    decreases Measure(s, open), 2, 0
  {
    hide Closed, Faithful, Kept, Measure, Choose, Sat, Prune, LockName, SingleVersions;
    var (s1, r1) := Prune(db, s, d);
    var n := d.name;
    assert Inv(db, s1, open) && Below(s1, open, s, open);
    hide Rank;
    BelowMeasure(s1, open, s, open);
    if r1 == 0 {
      AlreadyMet(db, s, d, f);
    } else if r1 > 0 {
      var p := match s1.name[n] case Locked(q, _, _) => q case Choices(c) => Choose(db, n, c);
      if s1.name[n].Locked? || p.Some? {
        assert MetBy(db, p, d);
        EnterUntouched(db, s, n, p, f, {d});
        assert LockAs(s1, n, p) == LockAs(s, n, p);
        LockNameHealthy(db, s1, open, n, p, f);
      }
    }
  }

  /** The name is locked to something that fits: the request is met or can never be. */
  lemma AlreadyMet(db: Db, s: State, d: Dependency, f: Frame)
    requires Ready(db, s, {}) && Healthy(db, s, f.(todo := f.todo + {d})) && Met(db, s, d)
    ensures Outcome(db, s, f.todo + {d}, s, f)
  {
    if Doomed(s, f.todo + {d}) {
      var e :| e in f.todo + {d} && DoomedBy(s, e);
      assert e in f.todo;
    }
  }

  lemma {:induction false} FixPackageHealthy(db: Db, s: State, open: set<NameId>, deps: seq<Dependency>, f: Frame)
    requires Ready(db, s, open) && ValidDeps(db, deps)
    requires Healthy(db, s, f.(todo := f.todo + set d | d in deps))
    ensures
      var (s', r) := FixPackage(db, s, open, deps);
      r == 0 ==> Outcome(db, s, f.todo + (set d | d in deps), s', f)
    decreases Measure(s, open), 3, |deps|
  {
    var all := set d | d in deps;
    if deps == [] {
      assert f.todo + all == f.todo && f == f.(todo := f.todo);
    } else {
      var rest := set d | d in deps[1..];
      assert all == rest + {deps[0]};
      assert f.todo + all == (f.todo + rest) + {deps[0]};
      var f1 := f.(todo := f.todo + rest);
      assert f1.(todo := f1.todo + {deps[0]}) == f.(todo := f.todo + all);
      LockDependencyHealthy(db, s, open, deps[0], f1);
      var (s1, r1) := LockDependency(db, s, open, deps[0]);
      BelowMeasure(s1, open, s, open);
      if r1 == 0 {
        FixPackageHealthy(db, s1, open, deps[1..], f);
      }
    }
  }

  /** The dependants up to the i-th are settled or not broken by the choice made for `n`. */
  ghost predicate Repaired(db: Db, s: State, n: NameId, i: nat)
    requires Ready(db, s, {}) && n < |s.name| && i <= |db.names[n].rdepends|
  {
    forall k | 0 <= k < i ::
      s.name[db.names[n].rdepends[k]].Settled() || !MustRepair(db, s, n, db.names[n].rdepends[k])
  }

  lemma RepairedStays(db: Db, s: State, s': State, n: NameId, i: nat)
    requires Ready(db, s, {}) && Ready(db, s', {}) && n < |s.name| && i <= |db.names[n].rdepends|
    requires s.name[n].Settled() && Stable(s, s') && Clean(s) && Clean(s') && Repaired(db, s, n, i)
    ensures Repaired(db, s', n, i)
  {
    forall k | 0 <= k < i
      ensures s'.name[db.names[n].rdepends[k]].Settled() || !MustRepair(db, s', n, db.names[n].rdepends[k])
    {
      var m := db.names[n].rdepends[k];
      assert s.name[m].Settled() || !MustRepair(db, s, n, m);
    }
  }

  lemma {:induction false} RepairDependantsHealthy(
    db: Db, s: State, open: set<NameId>, n: NameId, p: Option<PkgId>, i: nat, f: Frame)
    requires Ready(db, s, open) && n < |s.name| && i <= |db.names[n].rdepends| && Healthy(db, s, f)
    requires Doomed(s, f.todo) || (s.name[n] == Locked(p, false, false) && Repaired(db, s, n, i))
    ensures
      var (s', r) := RepairDependants(db, s, open, n, p.None?, i);
      r == 0 ==> Outcome(db, s, f.todo, s', f) &&
                 (Doomed(s', f.todo) || Repaired(db, s', n, |db.names[n].rdepends|))
    decreases Measure(s, open), 3, |db.names[n].rdepends| - i
  {
    hide Closed, Faithful, Kept, Measure, MustRepair, Sat, LockName, LockDependency, SingleVersions;
    if i < |db.names[n].rdepends| {
      var m := db.names[n].rdepends[i];
      if MustRepair(db, s, n, m) { MustRepairCanLock(db, s, n, m); }
      if !MustRepair(db, s, n, m) {
        RepairDependantsHealthy(db, s, open, n, p, i + 1, f);
      } else {
        var (s1, r1) :=
          if p.None? then LockName(db, s, open, m, None)
          else LockDependency(db, s, open, Dependency(m, REQUIRE, None));
        BelowMeasure(s1, open, s, open);
        RepairOneHealthy(db, s, open, n, p, m, f);
        if r1 == 0 {
          if !Doomed(s1, f.todo) {
            RepairedStays(db, s, s1, n, i);
          }
          RepairDependantsHealthy(db, s1, open, n, p, i + 1, f);
        }
      }
    }
  }

  lemma {:induction false} RepairOneHealthy(
    db: Db, s: State, open: set<NameId>, n: NameId, p: Option<PkgId>, m: NameId, f: Frame)
    requires Ready(db, s, open) && n < |s.name| && m < |s.name| && Healthy(db, s, f)
    requires Doomed(s, f.todo) || s.name[n] == Locked(p, false, false)
    requires MustRepair(db, s, n, m)
    ensures
      var (s', r) :=
        if p.None? then LockName(db, s, open, m, None)
        else LockDependency(db, s, open, Dependency(m, REQUIRE, None));
      r == 0 ==> Outcome(db, s, f.todo, s', f) && (Doomed(s', f.todo) || s'.name[m].Settled())
    decreases Measure(s, open), 2, 1
  {
    if p.Some? {
      var d := Dependency(m, REQUIRE, None);
      HealthyMoreTodo(db, s, f, d);
      LockDependencyHealthy(db, s, open, d, f);
    } else {
      DeleteHealthy(db, s, n, m, f);
      LockNameHealthy(db, s, open, m, None, f);
    }
  }

  lemma HealthyMoreTodo(db: Db, s: State, f: Frame, d: Dependency)
    requires Ready(db, s, {}) && Healthy(db, s, f)
    ensures Healthy(db, s, f.(todo := f.todo + {d}))
    ensures Doomed(s, f.todo) ==> Doomed(s, f.todo + {d})
  {
    if Doomed(s, f.todo) {
      var e :| e in f.todo && DoomedBy(s, e);
      assert e in f.todo + {d};
    }
  }

  /** Deleting a dependant of the removed `n`: if it was settled, somebody is doomed already. */
  lemma DeleteHealthy(db: Db, s: State, n: NameId, m: NameId, f: Frame)
    requires Ready(db, s, {}) && n < |s.name| && m < |s.name| && Healthy(db, s, f)
    requires Doomed(s, f.todo) || s.name[n] == Locked(None, false, false)
    requires MustRepair(db, s, n, m)
    ensures Ready(db, LockAs(s, m, None), {}) && Healthy(db, LockAs(s, m, None), Enter(db, f, m, None))
    ensures Doomed(s, f.todo) ==> Doomed(LockAs(s, m, None), f.todo)
    ensures Doomed(LockAs(s, m, None), f.todo) || (Stable(s, LockAs(s, m, None)) && m !in f.busy)
    ensures CanLock(db, s, m, None) && Enter(db, f, m, None).todo == f.todo
  {
    var s1 := LockAs(s, m, None);
    if s.name[m].Settled() && s.name[n] == Locked(None, false, false) && Closed(db, s, f.todo) {
      var q := s.name[m].pkg.value;
      var k :| 0 <= k < |db.packages[q].depends| && db.packages[q].depends[k].name == n &&
        !MetBy(db, None, db.packages[q].depends[k]);
      var d := db.packages[q].depends[k];
      assert d in db.packages[q].depends && !Met(db, s, d);
      assert DoomedBy(s, d);
    }
    if Doomed(s, f.todo) {
      var e :| e in f.todo && DoomedBy(s, e);
      assert DoomedBy(s1, e);
    } else {
      EnterUntouched(db, s, m, None, f, {});
    }
  }

  lemma {:induction false} LockNameHealthy(db: Db, s: State, open: set<NameId>, n: NameId, p: Option<PkgId>, f: Frame)
    requires Ready(db, s, open) && n < |s.name| && CanLock(db, s, n, p)
    requires Ready(db, LockAs(s, n, p), {}) && Healthy(db, LockAs(s, n, p), Enter(db, f, n, p))
    requires Doomed(LockAs(s, n, p), Enter(db, f, n, p).todo) || n !in f.busy
    ensures
      var (s', r) := LockName(db, s, open, n, p);
      r == 0 ==> Outcome(db, LockAs(s, n, p), Enter(db, f, n, p).todo, s', f)
    decreases Measure(s, open), 1, 0
  {
    LockBegins(db, s, open, n, p);
    var s1, open1, f1 := LockAs(s, n, p), OpenWith(open, n, p), Enter(db, f, n, p);
    assert Repaired(db, s1, n, 0);
    hide Closed, Faithful, Repaired, Measure, Installed, KeepsUntouched, Sat, Complete, RepairDependants;
    var (s2, r2) :=
      if Installed(db, n).Some? then RepairDependants(db, s1, open1, n, p.None?, 0) else (s1, 0);
    if Installed(db, n).Some? { RepairDependantsHealthy(db, s1, open1, n, p, 0, f1); }
    if r2 == 0 {
      BelowMeasure(s2, open1, s1, open1);
      assert Healthy(db, s2, f1.(scanning := f.scanning)) by {
        if !Doomed(s2, f1.todo) && SingleVersions(db) { ScanDone(db, s2, n, f.scanning); }
      }
      CompleteHealthy(db, s2, open, n, p, f);
    }
  }

  lemma {:induction false} CompleteHealthy(db: Db, s: State, open: set<NameId>, n: NameId, p: Option<PkgId>, f: Frame)
    requires Ready(db, s, OpenWith(open, n, p)) && n < |s.name| && (p.Some? ==> PkgOf(db, n, p.value) && n !in open)
    requires Healthy(db, s, Enter(db, f, n, p).(scanning := f.scanning))
    requires Doomed(s, f.todo + DepsOf(db, p)) || (s.name[n] == Locked(p, false, false) && n !in f.busy)
    ensures
      var (s', r) := Complete(db, s, open, n, p);
      r == 0 ==> Outcome(db, s, f.todo + DepsOf(db, p), s', f)
    decreases Measure(s, OpenWith(open, n, p)), 4, 0
  {
    hide Closed, Faithful, Kept, Measure, Installed, Sat, FixPackage, Record;
    if p.None? {
      assert f.todo + DepsOf(db, p) == f.todo;
      LockRecorded(db, s, n, p, f);
    } else {
      var open1 := OpenWith(open, n, p);
      var deps := db.packages[p.value].depends;
      var f1 := Frame(f.todo, f.busy + {n}, f.scanning);
      assert f1.(todo := f1.todo + set d | d in deps) == Enter(db, f, n, p).(scanning := f.scanning);
      FixPackageHealthy(db, s, open1, deps, f1);
      var (s1, r1) := FixPackage(db, s, open1, deps);
      if r1 == 0 { LockRecorded(db, s1, n, p, f); }
    }
  }

  lemma ScanDone(db: Db, s: State, n: NameId, scanning: set<NameId>)
    requires Ready(db, s, {}) && n < |s.name| && SingleVersions(db) && Clean(s) && Kept(db, s, scanning + {n})
    requires Installed(db, n).Some? ==> s.name[n].Settled() && Repaired(db, s, n, |db.names[n].rdepends|)
    ensures Kept(db, s, scanning)
  {
    forall m, d | 0 <= m < |s.name| && !s.name[m].Locked? && Installed(db, m).Some? &&
                  d in db.packages[Installed(db, m).value].depends && d.name == n && Rechecked(db, m, d)
      ensures MetBy(db, s.name[n].Selected(), d)
    {
      var k :| 0 <= k < |db.names[n].rdepends| && db.names[n].rdepends[k] == m;
      assert !MustRepair(db, s, n, m);
      assert Representative(db, s, m) == Installed(db, m);
    }
    assert KeepsUntouched(db, s, n);
  }

  lemma LockRecorded(db: Db, s: State, n: NameId, p: Option<PkgId>, f: Frame)
    requires Ready(db, s, {}) && n < |s.name| && (p.Some? ==> PkgOf(db, n, p.value))
    requires Healthy(db, s, f.(busy := f.busy + {n}))
    requires Doomed(s, f.todo) || (s.name[n] == Locked(p, false, false) && n !in f.busy)
    ensures
      var s' := Record(db, s, n, p);
      && Ready(db, s', {}) && Healthy(db, s', f) && s'.name == s.name && (Doomed(s, f.todo) ==> Doomed(s', f.todo))
  {
    var s' := Record(db, s, n, p);
    assert s'.name == s.name;
    if Doomed(s, f.todo) {
      var e :| e in f.todo && DoomedBy(s, e);
      assert DoomedBy(s', e);
    } else {
      RecordedFaithful(db, s, n, p, f.busy);
      assert Closed(db, s', f.todo) by {
        assert Closed(db, s, f.todo);
        assert forall d :: Met(db, s', d) == Met(db, s, d);
      }
      if SingleVersions(db) {
        assert Kept(db, s, f.scanning);
        assert forall m | 0 <= m < |s.name| :: KeepsUntouched(db, s, m) ==> KeepsUntouched(db, s', m);
      }
    }
  }

  lemma RecordedFaithful(db: Db, s: State, n: NameId, p: Option<PkgId>, busy: set<NameId>)
    requires Ready(db, s, {}) && n < |s.name| && s.name[n] == Locked(p, false, false)
    requires Faithful(db, s, busy + {n}) && n !in busy
    ensures Ready(db, Record(db, s, n, p), {}) && Faithful(db, Record(db, s, n, p), busy)
  {
    var oldpkg := Installed(db, n);
    if !(oldpkg == p && (p.None? || !db.names[n].reinstall)) {
      var c := Change(oldpkg, p);
      var s' := s.(changes := s.changes + [c]);
      assert s'.changes[|s.changes|] == c && ChangedName(db, c) == n;
      forall m | 0 <= m < |s.name| && s.name[m].Settled() && m !in busy
        ensures Unchanged(db, s', m) || Listed(db, s', m)
      {
        if m != n && Listed(db, s, m) {
          var i :| 0 <= i < |s.changes| && ChangedName(db, s.changes[i]) == m;
          assert s'.changes[i] == s.changes[i];
        }
      }
    }
  }
}
