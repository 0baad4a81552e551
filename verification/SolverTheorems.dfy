/** What a whole solve guarantees when every request succeeded, before and after autoclean. */
module SolverTheorems {
  import opened Wrappers
  import opened Version
  import opened Solver
  import opened SolverClosure

  ghost predicate Solved(db: Db, s: State)
    requires Ready(db, s, {})
  {
    Healthy(db, s, NO_FRAME)
  }

  lemma FreshSolved(db: Db)
    requires Valid(db)
    ensures Ready(db, Fresh(db), {}) && Solved(db, Fresh(db))
  {
  }

  lemma {:induction false} LockAllSolved(db: Db, s: State, deps: seq<Dependency>)
    requires Ready(db, s, {}) && ValidDeps(db, deps) && Solved(db, s)
    ensures
      var (s', errors) := LockAll(db, s, deps);
      errors == 0 ==> Solved(db, s') && Stable(s, s') && forall d | d in deps :: Met(db, s', d)
    decreases deps
  {
    hide Healthy;
    if deps != [] {
      LockOneSolved(db, s, deps[0]);
      var (s1, r1) := LockDependency(db, s, {}, deps[0]);
      if r1 == 0 { LockAllSolved(db, s1, deps[1..]); }
    }
  }

  lemma LockOneSolved(db: Db, s: State, d: Dependency)
    requires Ready(db, s, {}) && d.name < |s.name| && Solved(db, s)
    ensures
      var (s', r) := LockDependency(db, s, {}, d);
      r == 0 ==> Solved(db, s') && Stable(s, s') && Met(db, s', d)
  {
    HealthyMoreTodo(db, s, NO_FRAME, d);
    LockDependencyHealthy(db, s, {}, d, NO_FRAME);
  }

  lemma {:induction false} AutocleanSolved(db: Db, s: State, deps: seq<Dependency>)
    requires Ready(db, s, {}) && ValidDeps(db, deps) && Solved(db, s)
    ensures Solved(db, Autoclean(db, s, deps)) && Stable(s, Autoclean(db, s, deps))
    decreases deps
  {
    hide Healthy, NotNeeded;
    if deps != [] {
      var n := deps[0].name;
      if s.name[n].Locked? || db.names[n].toplevel || !NotNeeded(db, s, n) {
        AutocleanSolved(db, s, deps[1..]);
      } else {
        RemoveSolved(db, s, n);
        AutocleanSolved(db, LockName(db, s, {}, n, None).0, deps[1..]);
      }
    }
  }

  lemma SolvedIsClean(db: Db, s: State)
    requires Ready(db, s, {}) && Solved(db, s)
    ensures forall n | 0 <= n < |s.name| && !s.name[n].Locked? :: s.name[n].Empty?
  {
  }

  lemma RemoveSolved(db: Db, s: State, n: NameId)
    requires Ready(db, s, {}) && n < |s.name| && !s.name[n].Locked? && Solved(db, s)
    ensures
      var s' := LockName(db, s, {}, n, None).0;
      Solved(db, s') && Stable(s, s')
  {
    hide LockName, Healthy, Inv;
    SolvedIsClean(db, s);
    assert NO_FRAME.(todo := NO_FRAME.todo + {}) == NO_FRAME;
    EnterUntouched(db, s, n, None, NO_FRAME, {});
    LockNameHealthy(db, s, {}, n, None, NO_FRAME);
  }

  lemma {:induction false} CommitCleanSolved(db: Db, s: State, i: nat)
    requires Ready(db, s, {}) && i <= |s.changes| && Solved(db, s)
    ensures Solved(db, CommitClean(db, s, i)) && Stable(s, CommitClean(db, s, i))
    decreases Measure(s, {}), |s.changes| - i
  {
    hide Healthy, Autoclean;
    if i < |s.changes| {
      var c := s.changes[i];
      if c.oldpkg.Some? { AutocleanSolved(db, s, db.packages[c.oldpkg.value].depends); }
      var s1 := if c.oldpkg.Some? then Autoclean(db, s, db.packages[c.oldpkg.value].depends) else s;
      CommitCleanSolved(db, s1, i + 1);
    }
  }

  // ----- Soundness -----

  /** All requests are met by the selection, and so is every dependency of a selected package: a
      conflict by the name not being installed, a requirement by a package of a fitting version. */
  lemma SolveIsClosed(db: Db, requests: seq<Dependency>)
    requires Valid(db) && ValidDeps(db, requests)
    requires LockAll(db, Fresh(db), requests).1 == 0
    ensures
      var s := LockAll(db, Fresh(db), requests).0;
      && (forall d | d in requests :: Met(db, s, d))
      && (forall n, d | 0 <= n < |s.name| && s.name[n].Selected().Some? &&
                        d in db.packages[s.name[n].Selected().value].depends :: Met(db, s, d))
  {
    FreshSolved(db);
    LockAllSolved(db, Fresh(db), requests);
  }

  /** Nothing that was locked changes any more, neither by later requests nor by autoclean. */
  lemma ChoicesAreFinal(db: Db, earlier: seq<Dependency>, later: seq<Dependency>)
    requires Valid(db) && ValidDeps(db, earlier) && ValidDeps(db, later)
    requires LockAll(db, Fresh(db), earlier).1 == 0
    requires LockAll(db, LockAll(db, Fresh(db), earlier).0, later).1 == 0
    ensures
      var s := LockAll(db, Fresh(db), earlier).0;
      var s' := LockAll(db, s, later).0;
      Stable(s, s') && Stable(s', CommitClean(db, s', 0)) && Solved(db, CommitClean(db, s', 0))
  {
    FreshSolved(db);
    LockAllSolved(db, Fresh(db), earlier);
    var s := LockAll(db, Fresh(db), earlier).0;
    LockAllSolved(db, s, later);
    CommitCleanSolved(db, LockAll(db, s, later).0, 0);
  }

  // ----- The new installed set -----

  /** The installed packages overlaid with the choices that the solve has made. */
  ghost function After(db: Db, s: State, n: NameId): Option<PkgId>
    requires Ready(db, s, {}) && n < |s.name|
  {
    if s.name[n].Locked? then s.name[n].pkg else Installed(db, n)
  }

  /** The list of dependants of `d`'s name has been cut short before `n`, and so no repair looked at `n`. */
  ghost predicate Missed(db: Db, s: State, n: NameId, d: Dependency)
    requires Ready(db, s, {}) && n < |s.name| && d.name < |s.name|
  {
    !s.name[n].Locked? && s.name[d.name].Locked? && n !in db.names[d.name].rdepends
  }

  /** Every installed dependant of a name is in its list of dependants. */
  ghost predicate DependantsListed(db: Db)
    requires Valid(db)
  {
    forall n | 0 <= n < |db.names| && Installed(db, n).Some? ::
      forall d | d in db.packages[Installed(db, n).value].depends && d.mask != CONFLICT ::
        d.name < |db.names| && n in db.names[d.name].rdepends
  }

  /** The requirements of the new set hold, but for those of missed packages. */
  ghost predicate HoldUnlessMissed(db: Db, s: State)
    requires Ready(db, s, {})
  {
    forall n, d | 0 <= n < |s.name| && After(db, s, n).Some? &&
                  d in db.packages[After(db, s, n).value].depends && d.mask != CONFLICT ::
      d.name < |s.name| && (MetBy(db, After(db, s, d.name), d) || Missed(db, s, n, d))
  }

  ghost predicate RequirementsHold(db: Db, s: State)
    requires Ready(db, s, {})
  {
    forall n, d | 0 <= n < |s.name| && After(db, s, n).Some? &&
                  d in db.packages[After(db, s, n).value].depends && d.mask != CONFLICT ::
      d.name < |s.name| && MetBy(db, After(db, s, d.name), d)
  }

  /** From a consistent installed set, a requirement of a package in the new set can fail only if the
      package was missed; with complete lists of dependants, none can. */
  lemma InstalledSetStaysConsistent(db: Db, requests: seq<Dependency>)
    requires Valid(db) && Consistent(db) && ValidDeps(db, requests)
    requires LockAll(db, Fresh(db), requests).1 == 0
    ensures
      var s := CommitClean(db, LockAll(db, Fresh(db), requests).0, 0);
      HoldUnlessMissed(db, s) && (DependantsListed(db) ==> RequirementsHold(db, s))
  {
    hide Healthy, Consistent, LockAll, CommitClean, Missed, DependantsListed;
    FreshSolved(db);
    LockAllSolved(db, Fresh(db), requests);
    var s1 := LockAll(db, Fresh(db), requests).0;
    CommitCleanSolved(db, s1, 0);
    var s := CommitClean(db, s1, 0);
    forall n, d | 0 <= n < |s.name| && After(db, s, n).Some? &&
                  d in db.packages[After(db, s, n).value].depends && d.mask != CONFLICT
      ensures d.name < |s.name|
      ensures MetBy(db, After(db, s, d.name), d) || Missed(db, s, n, d)
      ensures DependantsListed(db) ==> MetBy(db, After(db, s, d.name), d)
    {
      MetAfter(db, s, n, d);
    }
  }

  lemma MetAfter(db: Db, s: State, n: NameId, d: Dependency)
    requires Ready(db, s, {}) && Consistent(db) && Solved(db, s) && n < |s.name|
    requires After(db, s, n).Some? && d in db.packages[After(db, s, n).value].depends && d.mask != CONFLICT
    ensures d.name < |s.name| && (MetBy(db, After(db, s, d.name), d) || Missed(db, s, n, d))
    ensures DependantsListed(db) ==> MetBy(db, After(db, s, d.name), d)
  {
    if s.name[n].Locked? {
      assert Met(db, s, d);
    } else if s.name[d.name].Locked? && n in db.names[d.name].rdepends {
      assert KeepsUntouched(db, s, d.name) && Rechecked(db, n, d);
    }
  }

  // ----- Conflicts -----

  /** The package of `n` was not touched, and what it conflicts with is there all the same: installed
      afresh, not touched either, or chosen without a look at `n`. */
  ghost predicate Unchecked(db: Db, s: State, n: NameId, d: Dependency)
    requires Ready(db, s, {}) && n < |s.name| && d.name < |s.name|
  {
    && !s.name[n].Locked? && After(db, s, d.name).Some?
    && (Installed(db, d.name).None? || !s.name[d.name].Locked? || Missed(db, s, n, d))
  }

  ghost predicate HoldUnlessUnchecked(db: Db, s: State)
    requires Ready(db, s, {})
  {
    forall n, d | 0 <= n < |s.name| && After(db, s, n).Some? &&
                  d in db.packages[After(db, s, n).value].depends && d.mask == CONFLICT ::
      d.name < |s.name| && (MetBy(db, After(db, s, d.name), d) <==> !Unchecked(db, s, n, d))
  }

  /** A conflict of a package in the new set holds exactly if it is not one of these. */
  lemma ConflictsHoldExactly(db: Db, requests: seq<Dependency>)
    requires Valid(db) && Consistent(db) && ValidDeps(db, requests)
    requires LockAll(db, Fresh(db), requests).1 == 0
    ensures HoldUnlessUnchecked(db, CommitClean(db, LockAll(db, Fresh(db), requests).0, 0))
  {
    hide Healthy, Consistent, LockAll, CommitClean, Unchecked;
    FreshSolved(db);
    LockAllSolved(db, Fresh(db), requests);
    var s1 := LockAll(db, Fresh(db), requests).0;
    CommitCleanSolved(db, s1, 0);
    var s := CommitClean(db, s1, 0);
    forall n, d | 0 <= n < |s.name| && After(db, s, n).Some? &&
                  d in db.packages[After(db, s, n).value].depends && d.mask == CONFLICT
      ensures d.name < |s.name| && (MetBy(db, After(db, s, d.name), d) <==> !Unchecked(db, s, n, d))
    {
      ConflictAfter(db, s, n, d);
    }
  }

  lemma ConflictAfter(db: Db, s: State, n: NameId, d: Dependency)
    requires Ready(db, s, {}) && Consistent(db) && Solved(db, s) && n < |s.name|
    requires After(db, s, n).Some? && d in db.packages[After(db, s, n).value].depends && d.mask == CONFLICT
    ensures d.name < |s.name| && (MetBy(db, After(db, s, d.name), d) <==> !Unchecked(db, s, n, d))
  {
    if s.name[n].Locked? {
      assert Met(db, s, d);
    } else if s.name[d.name].Locked? && Installed(db, d.name).Some? && n in db.names[d.name].rdepends {
      assert KeepsUntouched(db, s, d.name) && Rechecked(db, n, d);
    }
  }

  /** No conflict of an untouched package went unchecked. */
  ghost predicate ConflictsChecked(db: Db, s: State)
    requires Ready(db, s, {})
  {
    forall n, d | 0 <= n < |s.name| && !s.name[n].Locked? && Installed(db, n).Some? &&
                  d in db.packages[Installed(db, n).value].depends && d.mask == CONFLICT ::
      d.name < |s.name| && !Unchecked(db, s, n, d)
  }

  /** Every dependency of the new set holds, conflicts included. */
  ghost predicate AllHold(db: Db, s: State)
    requires Ready(db, s, {})
  {
    forall n, d | 0 <= n < |s.name| && After(db, s, n).Some? && d in db.packages[After(db, s, n).value].depends ::
      d.name < |s.name| && MetBy(db, After(db, s, d.name), d)
  }

  /** No untouched package was missed by a choice that breaks one of its requirements. */
  ghost predicate MissedHold(db: Db, s: State)
    requires Ready(db, s, {})
  {
    forall n, d | 0 <= n < |s.name| && !s.name[n].Locked? && Installed(db, n).Some? &&
                  d in db.packages[Installed(db, n).value].depends && d.mask != CONFLICT ::
      d.name < |s.name| && (Missed(db, s, n, d) ==> MetBy(db, After(db, s, d.name), d))
  }

  /** So the new set is sound exactly if no requirement of a missed package and no conflict of an
      untouched one is broken in these ways. */
  lemma NewSetHoldsExactly(db: Db, requests: seq<Dependency>)
    requires Valid(db) && Consistent(db) && ValidDeps(db, requests)
    requires LockAll(db, Fresh(db), requests).1 == 0
    ensures
      var s := CommitClean(db, LockAll(db, Fresh(db), requests).0, 0);
      && (DependantsListed(db) ==> MissedHold(db, s))
      && (AllHold(db, s) <==> MissedHold(db, s) && ConflictsChecked(db, s))
  {
    hide LockAll, CommitClean, Consistent, DependantsListed, HoldUnlessMissed, HoldUnlessUnchecked, RequirementsHold, AllHold,
      MissedHold, ConflictsChecked;
    FreshSolved(db);
    InstalledSetStaysConsistent(db, requests);
    ConflictsHoldExactly(db, requests);
    var s := CommitClean(db, LockAll(db, Fresh(db), requests).0, 0);
    if RequirementsHold(db, s) { NoneMissed(db, s); }
    HoldParts(db, s);
  }

  lemma UntouchedStay(db: Db, s: State)
    requires Ready(db, s, {})
    ensures forall n | 0 <= n < |s.name| && !s.name[n].Locked? :: After(db, s, n) == Installed(db, n)
  {
  }

  lemma NoneMissed(db: Db, s: State)
    requires Ready(db, s, {}) && RequirementsHold(db, s)
    ensures MissedHold(db, s)
  {
    hide MetBy, Installed;
    UntouchedStay(db, s);
  }

  lemma HoldParts(db: Db, s: State)
    requires Ready(db, s, {}) && HoldUnlessMissed(db, s) && HoldUnlessUnchecked(db, s)
    ensures AllHold(db, s) <==> MissedHold(db, s) && ConflictsChecked(db, s)
  {
    hide MetBy, Installed, Unchecked;
    if MissedHold(db, s) && ConflictsChecked(db, s) {
      forall n, d | 0 <= n < |s.name| && After(db, s, n).Some? && d in db.packages[After(db, s, n).value].depends
        ensures d.name < |s.name| && MetBy(db, After(db, s, d.name), d)
      {
        if d.mask == CONFLICT && s.name[n].Locked? { LockedIsChecked(db, s, n, d); }
      }
    }
    UntouchedStay(db, s);
  }

  lemma LockedIsChecked(db: Db, s: State, n: NameId, d: Dependency)
    requires Ready(db, s, {}) && n < |s.name| && d.name < |s.name| && s.name[n].Locked?
    ensures !Unchecked(db, s, n, d)
  {
  }

  /** Nothing in the database provides the name. */
  ghost predicate Unprovided(db: Db, n: NameId) { forall p | 0 <= p < |db.packages| :: db.packages[p].name != n }

  /** What a caller can see to beforehand: the names that installed packages conflict with cannot be
      installed, or are requested not to be. */
  ghost predicate ConflictsGuarded(db: Db, requests: seq<Dependency>)
    requires Valid(db)
  {
    forall n, d | 0 <= n < |db.names| && Installed(db, n).Some? &&
                  d in db.packages[Installed(db, n).value].depends && d.mask == CONFLICT ::
      Unprovided(db, d.name) || exists r | r in requests :: r.name == d.name && r.mask == CONFLICT
  }

  /** Then every dependency of the new set holds, if the lists of dependants are complete, or else
      exactly if no missed package is broken. */
  lemma GuardedSetHolds(db: Db, requests: seq<Dependency>)
    requires Valid(db) && Consistent(db) && ValidDeps(db, requests) && ConflictsGuarded(db, requests)
    requires LockAll(db, Fresh(db), requests).1 == 0
    ensures
      var s := CommitClean(db, LockAll(db, Fresh(db), requests).0, 0);
      (DependantsListed(db) ==> AllHold(db, s)) && (AllHold(db, s) <==> MissedHold(db, s))
  {
    hide Consistent, LockAll, CommitClean, ConflictsGuarded, Healthy, Unchecked, DependantsListed, AllHold, MissedHold;
    NewSetHoldsExactly(db, requests);
    FreshSolved(db);
    LockAllSolved(db, Fresh(db), requests);
    var s1 := LockAll(db, Fresh(db), requests).0;
    CommitCleanSolved(db, s1, 0);
    var s := CommitClean(db, s1, 0);
    forall n, d | 0 <= n < |s.name| && !s.name[n].Locked? && Installed(db, n).Some? &&
                  d in db.packages[Installed(db, n).value].depends && d.mask == CONFLICT
      ensures d.name < |s.name| && !Unchecked(db, s, n, d)
    {
      GuardedConflict(db, requests, s1, s, n, d);
    }
  }

  lemma GuardedConflict(db: Db, requests: seq<Dependency>, s1: State, s: State, n: NameId, d: Dependency)
    requires Ready(db, s1, {}) && Ready(db, s, {}) && Stable(s1, s) && ConflictsGuarded(db, requests)
    requires ValidDeps(db, requests) && forall r | r in requests :: Met(db, s1, r)
    requires n < |s.name| && !s.name[n].Locked? && Installed(db, n).Some?
    requires d in db.packages[Installed(db, n).value].depends && d.mask == CONFLICT
    ensures d.name < |s.name| && !Unchecked(db, s, n, d)
  {
    if !Unprovided(db, d.name) {
      var r :| r in requests && r.name == d.name && r.mask == CONFLICT;
      assert Met(db, s1, r);
    }
  }

  /** The lists of dependants are complete, those by conflict included. */
  ghost predicate AllListed(db: Db)
    requires Valid(db)
  {
    forall n | 0 <= n < |db.names| && Installed(db, n).Some? ::
      forall d | d in db.packages[Installed(db, n).value].depends :: d.name < |db.names| && n in db.names[d.name].rdepends
  }

  /** An installed package that conflicts with a name which nothing provides yet. */
  function ConflictDb(): Db {
    Db([Name([0], [], false, false, false), Name([1], [0], false, false, false)],
       [Package(0, Some("1"), [Dependency(1, CONFLICT, None)], true, NoFile, 0, 0, false),
        Package(1, Some("1"), [], false, NoFile, 0, 0, false)],
       [], false, false)
  }

  /** The case does arise, with complete lists of dependants: the installed package is not looked at
      when the name that it conflicts with is installed afresh. */
  lemma ConflictIsNotRechecked()
    ensures
      var db, request := ConflictDb(), Dependency(1, REQUIRE, None);
      && Valid(db) && Consistent(db) && AllListed(db) && ValidDeps(db, [request])
      && LockAll(db, Fresh(db), [request]).1 == 0
      && var s := LockAll(db, Fresh(db), [request]).0;
         var d := db.packages[0].depends[0];
         After(db, s, 0) == Some(0) && d.name == 1 && After(db, s, 1) == Some(1) && !MetBy(db, After(db, s, 1), d)
  {
    ConflictDbIsValid();
    ConflictDbInstalled();
    ConflictDbPrunes();
    hide Consistent, AllListed, Healthy, Prune, Installed;
    var db, d, s0 := ConflictDb(), Dependency(1, REQUIRE, None), Fresh(ConflictDb());
    assert [d][0] == d && [d][1..] == [];
    var s1 := s0.Set(1, Locked(Some(1), true, false));
    LockBegins(db, s1, {}, 1, Some(1));
    var s2 := s1.Set(1, Locked(Some(1), false, false));
    assert FixPackage(db, s2, {1}, []) == (s2, 0);
    assert Complete(db, s2, {}, 1, Some(1)) == (Record(db, s2, 1, Some(1)), 0);
    assert LockName(db, s1, {}, 1, Some(1)) == (Record(db, s2, 1, Some(1)), 0);
    assert LockDependency(db, s0, {}, d) == LockName(db, s1, {}, 1, Some(1));
  }

  lemma ConflictDbIsValid()
    ensures Valid(ConflictDb()) && Consistent(ConflictDb()) && AllListed(ConflictDb())
    ensures ValidDeps(ConflictDb(), [Dependency(1, REQUIRE, None)])
  {
    hide Valid, AllListed, Installed, FirstInstalled, MetBy;
    ConflictDbIsIndexed();
    ConflictDbInstalled();
  }

  lemma ConflictDbPrunes()
    ensures Valid(ConflictDb())
    ensures
      var s0 := Fresh(ConflictDb());
      Prune(ConflictDb(), s0, Dependency(1, REQUIRE, None)) == (s0.Set(1, Locked(Some(1), true, false)), 1)
  {
    var db, d := ConflictDb(), Dependency(1, REQUIRE, None);
    assert Passes(db, [1][0], Meets(d)) && Passes(db, [1][0], IsInstallable);
    assert SwapPrune(db, [1], 1, Meets(d)) == [1] && SwapPrune(db, [1], 0, IsInstallable) == [1];
  }

  lemma ConflictDbInstalled()
    ensures Valid(ConflictDb())
    ensures FirstInstalled(ConflictDb(), [0]) == Some(0) && FirstInstalled(ConflictDb(), [1]) == None
    ensures Installed(ConflictDb(), 0) == Some(0) && Installed(ConflictDb(), 1) == None
  {
    assert Valid(ConflictDb());
    hide Valid;
  }

  lemma ConflictDbIsIndexed()
    ensures Valid(ConflictDb()) && AllListed(ConflictDb())
  {
    hide Installed;
    ConflictDbInstalled();
  }

  // ----- The change list -----

  /** Carrying out one change: the old version goes, the new one comes. */
  function Apply(db: Db, m: map<NameId, PkgId>, c: Change): map<NameId, PkgId>
    requires ChangeOk(db, c)
  {
    var n := ChangedName(db, c);
    if c.newpkg.Some? then m[n := c.newpkg.value] else m - {n}
  }

  function Replay(db: Db, m: map<NameId, PkgId>, changes: seq<Change>): map<NameId, PkgId>
    requires forall i | 0 <= i < |changes| :: ChangeOk(db, changes[i])
  {
    if changes == [] then m
    else Apply(db, Replay(db, m, changes[..|changes| - 1]), changes[|changes| - 1])
  }

  ghost predicate Shows(m: map<NameId, PkgId>, n: NameId, p: Option<PkgId>) {
    if p.Some? then n in m && m[n] == p.value else n !in m
  }

  lemma {:induction false} ReplayAt(db: Db, m: map<NameId, PkgId>, changes: seq<Change>, n: NameId, p: Option<PkgId>)
    requires forall i | 0 <= i < |changes| :: ChangeOk(db, changes[i])
    requires forall i | 0 <= i < |changes| :: ChangedName(db, changes[i]) == n ==> changes[i].newpkg == p
    requires Shows(m, n, p) || exists i | 0 <= i < |changes| :: ChangedName(db, changes[i]) == n
    ensures Shows(Replay(db, m, changes), n, p)
  {
    if changes != [] {
      var k := |changes| - 1;
      if ChangedName(db, changes[k]) != n {
        ReplayAt(db, m, changes[..k], n, p);
      }
    }
  }

  /** There is at most one change per name, it goes from the installed package to the selected
      one, and replaying the list over the installed packages gives exactly the new set. */
  lemma ChangeListIsFaithful(db: Db, requests: seq<Dependency>, installed: map<NameId, PkgId>)
    requires Valid(db) && ValidDeps(db, requests)
    requires LockAll(db, Fresh(db), requests).1 == 0
    requires forall n | 0 <= n < |db.names| :: Shows(installed, n, Installed(db, n))
    ensures
      var s := CommitClean(db, LockAll(db, Fresh(db), requests).0, 0);
      && (forall i | 0 <= i < |s.changes| ::
            var c := s.changes[i];
            var n := ChangedName(db, c);
            n < |s.name| && c == Change(Installed(db, n), s.name[n].Selected()) && s.name[n].Locked?)
      && (forall i, j | 0 <= i < j < |s.changes| ::
            ChangedName(db, s.changes[i]) != ChangedName(db, s.changes[j]))
      && (forall n | 0 <= n < |s.name| :: Shows(Replay(db, installed, s.changes), n, After(db, s, n)))
  {
    FreshSolved(db);
    LockAllSolved(db, Fresh(db), requests);
    var s1 := LockAll(db, Fresh(db), requests).0;
    CommitCleanSolved(db, s1, 0);
    var s := CommitClean(db, s1, 0);
    forall n | 0 <= n < |s.name|
      ensures Shows(Replay(db, installed, s.changes), n, After(db, s, n))
    {
      if s.name[n].Locked? { assert Unchanged(db, s, n) || Listed(db, s, n); }
      ReplayAt(db, installed, s.changes, n, After(db, s, n));
    }
  }
}
