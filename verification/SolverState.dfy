/** The solver's state object, updated in place.  Each method does to the object what the function
    of the same name in Solver does to the value that the object holds. */
module SolverState {
  import opened Wrappers
  import opened Version
  import opened Solver

  class ApkState {
    const db: Db
    const name: array<NameState>
    var changes: seq<Change>
    var conflicts: seq<PkgId>
    var missing: seq<NameId>

    ghost function Value(): State
      reads this, name
    {
      State(name[..], changes, conflicts, missing)
    }

    ghost predicate Ready(open: set<NameId>)
      reads this, name
    {
      Valid(db) && Inv(db, Value(), open)
    }

    constructor (db: Db)
      requires Valid(db)
      ensures this.db == db && fresh(name) && Ready({}) && Value() == Fresh(db)
    {
      this.db := db;
      name := new NameState[|db.names|](_ => Empty);
      changes, conflicts, missing := [], [], [];
      new;
      assert name[..] == Fresh(db).name;
    }

    // ----- Candidate lists -----

    /** The loop that overwrites a failing candidate by the last one. */
    method PruneChoices(pkgs: array<PkgId>, num: nat, t: Test) returns (left: nat)
      requires num <= pkgs.Length && Known(db, pkgs[..num]) && pkgs as object != name
      modifies pkgs
      ensures left <= num && pkgs[..left] == SwapPrune(db, old(pkgs[..num]), 0, t)
    {
      hide Passes, SwapPrune;
      left := num;
      var i := 0;
      while i < left
        invariant i <= left <= num && Known(db, pkgs[..left])
        invariant forall k | 0 <= k < i :: Passes(db, pkgs[k], t)
        invariant SwapPrune(db, pkgs[..left], i, t) == SwapPrune(db, old(pkgs[..num]), 0, t)
        decreases left - i
      {
        ghost var c := pkgs[..left];
        assert c[i] == pkgs[i];
        SwapPruneStep(db, c, i, t);
        if Passes(db, pkgs[i], t) {
          i := i + 1;
        } else {
          pkgs[i] := pkgs[left - 1];
          left := left - 1;
          assert pkgs[..left] == c[i := c[|c| - 1]][..|c| - 1];
        }
      }
      SwapPruneStep(db, pkgs[..left], i, t);
    }

    method NewChoices(n: NameId) returns (ns: NameState)
      requires Valid(db) && n < |db.names|
      ensures ns == InitialChoices(db, n)
    {
      var all := db.names[n].pkgs;
      if |all| == 0 { return Locked(None, true, false); }
      var pkgs := new PkgId[|all|](i requires 0 <= i < |all| => all[i]);
      assert pkgs[..|all|] == all;
      var num: nat := PruneChoices(pkgs, |all|, IsInstallable);
      if db.names[n].toplevelOverride { return Choices(pkgs[..num]); }
      ghost var c := pkgs[..num];
      for i := 0 to |db.world|
        invariant num <= pkgs.Length && Known(db, pkgs[..num])
        invariant WorldPrune(db, n, pkgs[..num], i) == WorldPrune(db, n, c, 0)
      {
        if db.world[i].name == n {
          num := PruneChoices(pkgs, num, Meets(db.world[i]));
        }
      }
      ns := Choices(pkgs[..num]);
    }

    method PruneDependency(d: Dependency) returns (r: int)
      requires Ready({}) && d.name < name.Length
      modifies this`missing, name
      ensures (Value(), r) == Prune(db, old(Value()), d)
    {
      ghost var s := Value();
      var n := d.name;
      if name[n].Empty? {
        if d.mask == CONFLICT {
          name[n] := Locked(None, true, false);
          return 1;
        }
        var ns := NewChoices(n);
        name[n] := ns;
      }
      match name[n]
      case Locked(q, pending, error) =>
        if error { return -1; }
        if q.None? {
          if d.mask != CONFLICT {
            if pending {
              name[n] := Locked(None, false, false);
              missing := missing + [n];
            }
            assert name[..] == s.name[n := name[n]];
            return -1;
          }
        } else if !Sat(db, q.value, d) {
          return -1;
        }
        assert name[..] == s.name[n := name[n]];
        return if pending then 1 else 0;
      case Choices(c) =>
        assert NameStateOk(db, n, name[n]);
        r := PruneCandidates(n, c, d);
        assert name[..] == s.name[n := name[n]];
    }

    method PruneCandidates(n: NameId, c: seq<PkgId>, d: Dependency) returns (r: int)
      requires n < name.Length && Known(db, c)
      modifies this`missing, name
      ensures
        var c' := SwapPrune(db, c, 0, Meets(d));
        if |c'| == 1 && Available(db, c'[0]) then
          (Value(), r) == (old(Value()).Set(n, Locked(Some(c'[0]), true, false)), 1)
        else if |c'| <= 1 then
          (Value(), r) == (old(Value()).Set(n, Locked(None, true, false)).(missing := old(missing) + [n]), -1)
        else (Value(), r) == (old(Value()).Set(n, Choices(c')), |c'|)
    {
      hide SwapPrune;
      var pkgs := new PkgId[|c|](i requires 0 <= i < |c| => c[i]);
      assert pkgs[..|c|] == c;
      var num := PruneChoices(pkgs, |c|, Meets(d));
      if num == 1 && Available(db, pkgs[0]) {
        name[n] := Locked(Some(pkgs[0]), true, false);
        return 1;
      }
      if num <= 1 {
        name[n] := Locked(None, true, false);
        missing := missing + [n];
        return -1;
      }
      name[n] := Choices(pkgs[..num]);
      return num;
    }

    /** The choice between the installed package and the latest one. */
    method ChooseCandidate(n: NameId, c: seq<PkgId>) returns (use: Option<PkgId>)
      requires n < |db.names| && PkgsOf(db, n, c)
      ensures use == Choose(db, n, c)
    {
      var installed: Option<PkgId>, latest: Option<PkgId> := None, None;
      for i := 0 to |c|
        invariant (installed.Some? ==> installed.value in c) && (latest.Some? ==> latest.value in c)
        invariant Pick(db, n, c, i, installed, latest) == Pick(db, n, c, 0, None, None)
      {
        var p := c[i];
        if db.packages[p].installed {
          installed := Some(p);
        } else if !Available(db, p) {
          continue;
        }
        latest := Some(Better(db, n, p, latest));
      }
      if db.upgrade { return latest; }
      if installed.Some? && (db.packages[installed.value].repos != 0 || !db.names[n].reinstall) {
        return installed;
      }
      return latest;
    }

    // ----- Locking and repairing -----

    method LockDependency(d: Dependency, ghost open: set<NameId>) returns (r: int)
      requires Ready(open) && d.name < name.Length
      modifies this, name
      ensures (Value(), r) == Solver.LockDependency(db, old(Value()), open, d)
      decreases Measure(Value(), open), 2, 0
    {
      ghost var s := Value();
      r := PruneDependency(d);
      assert Below(Value(), open, s, open);
      BelowMeasure(Value(), open, s, open);
      if r <= 0 { return; }
      match name[d.name]
      case Locked(q, _, _) =>
        r := LockName(d.name, q, open);
      case Choices(c) =>
        var use := ChooseCandidate(d.name, c);
        if use.None? { return -1; }
        r := LockName(d.name, use, open);
    }

    method FixPackage(deps: seq<Dependency>, ghost open: set<NameId>) returns (r: int)
      requires Ready(open) && ValidDeps(db, deps)
      modifies this, name
      ensures (Value(), r) == Solver.FixPackage(db, old(Value()), open, deps)
      decreases Measure(Value(), open), 3, |deps|
    {
      ghost var s := Value();
      r := 0;
      for i := 0 to |deps|
        invariant Ready(open) && Below(Value(), open, s, open) && r in {0, -1}
        invariant
          var rest := Solver.FixPackage(db, Value(), open, deps[i..]);
          (rest.0, if r != 0 then -1 else rest.1) == Solver.FixPackage(db, s, open, deps)
      {
        BelowMeasure(Value(), open, s, open);
        assert deps[i..][0] == deps[i] && deps[i..][1..] == deps[i + 1..];
        var one := LockDependency(deps[i], open);
        if one != 0 { r := -1; }
      }
      assert deps[|deps|..] == [];
    }

    /** The walk over the dependants of a name, with the callback that removal or change calls for. */
    method RepairDependants(n: NameId, removed: bool, ghost open: set<NameId>) returns (r: int)
      requires Ready(open) && n < name.Length
      modifies this, name
      ensures (Value(), r) == Solver.RepairDependants(db, old(Value()), open, n, removed, 0)
      decreases Measure(Value(), open), 4, 0
    {
      hide Measure, MustRepair, Solver.LockDependency, Solver.LockName;
      ghost var s := Value();
      var i := 0;
      while i < |db.names[n].rdepends|
        invariant Ready(open) && Below(Value(), open, s, open) && i <= |db.names[n].rdepends|
        invariant Solver.RepairDependants(db, Value(), open, n, removed, i) ==
                  Solver.RepairDependants(db, s, open, n, removed, 0)
      {
        var m := db.names[n].rdepends[i];
        BelowMeasure(Value(), open, s, open);
        var broken := IsBroken(n, m);
        if broken {
          MustRepairCanLock(db, Value(), n, m);
          if removed {
            r := LockName(m, None, open);
          } else {
            r := LockDependency(Dependency(m, REQUIRE, None), open);
          }
          if r != 0 { return; }
        }
        i := i + 1;
      }
      r := 0;
    }

    /** Looks for a dependency of the package standing for `m` that the choice for `n` breaks. */
    method IsBroken(n: NameId, m: NameId) returns (broken: bool)
      requires Ready({}) && n < name.Length && m < name.Length
      ensures broken == MustRepair(db, Value(), n, m)
    {
      var p: Option<PkgId> := None;
      match name[m] {
        case Locked(q, _, _) => p := q;
        case Choices(c) =>
          assert NameStateOk(db, m, name[m]);
          p := FindInstalled(c);
        case Empty => p := FindInstalled(db.names[m].pkgs);
      }
      if p.None? { return false; }
      assert NameStateOk(db, m, Value().name[m]);
      var deps := db.packages[p.value].depends;
      assert NameStateOk(db, n, Value().name[n]);
      for k := 0 to |deps|
        invariant forall j | 0 <= j < k :: deps[j].name != n || MetBy(db, name[n].Selected(), deps[j])
      {
        if deps[k].name == n && !MetBy(db, name[n].Selected(), deps[k]) { return true; }
      }
      broken := false;
    }

    method FindInstalled(c: seq<PkgId>) returns (p: Option<PkgId>)
      requires Known(db, c)
      ensures p == FirstInstalled(db, c)
    {
      for j := 0 to |c|
        invariant FirstInstalled(db, c[j..]) == FirstInstalled(db, c)
      {
        if db.packages[c[j]].installed { return Some(c[j]); }
      }
      return None;
    }

    method FindOldPackage(n: NameId) returns (p: Option<PkgId>)
      requires Valid(db) && n < |db.names|
      ensures p == Installed(db, n)
    {
      var c := db.names[n].pkgs;
      p := None;
      for i := 0 to |c|
        invariant p == LastInstalled(db, c[..i])
      {
        assert c[..i + 1][..i] == c[..i];
        if db.packages[c[i]].installed { p := Some(c[i]); }
      }
      assert c[..|c|] == c;
    }

    method RecordConflict(n: NameId, p: PkgId)
      requires n < name.Length
      modifies this`conflicts, name
      ensures Value() == Solver.RecordConflict(old(Value()), n, p)
    {
      name[n] := Locked(Some(p), false, true);
      conflicts := conflicts + [p];
    }

    method LockName(n: NameId, p: Option<PkgId>, ghost open: set<NameId>) returns (r: int)
      requires Ready(open) && n < name.Length && CanLock(db, Value(), n, p)
      modifies this, name
      ensures (Value(), r) == Solver.LockName(db, old(Value()), open, n, p)
      decreases Measure(Value(), open), 1, 0
    {
      LockBegins(db, Value(), open, n, p);
      ghost var s1, open1 := Value().Set(n, Locked(p, false, false)), OpenWith(open, n, p);
      name[n] := Locked(p, false, false);
      assert Value() == s1;
      var oldpkg := FindOldPackage(n);
      if oldpkg.Some? {
        r := RepairDependants(n, p.None?, open1);
        BelowMeasure(Value(), open1, s1, open1);
        if r != 0 {
          RecordConflict(n, p.value);
          return;
        }
      }
      if p.Some? {
        r := FixPackage(db.packages[p.value].depends, open1);
        if r != 0 {
          RecordConflict(n, p.value);
          return;
        }
      }
      if !(oldpkg == p && (p.None? || !db.names[n].reinstall)) {
        changes := changes + [Change(oldpkg, p)];
      }
      r := 0;
    }

    // ----- The clean-up at commit -----

    /** Would something break if `n` were taken away?  The name's state is changed and put back. */
    method TryWithout(n: NameId) returns (free: bool)
      requires Ready({}) && n < name.Length
      modifies name
      ensures Value() == old(Value()) && free == NotNeeded(db, Value(), n)
    {
      ghost var s := Value();
      var oldns := name[n];
      name[n] := Locked(None, true, false);
      ghost var s' := Value();
      assert s' == s.Set(n, Locked(None, true, false)) && Inv(db, s', {});
      free := true;
      for i := 0 to |db.names[n].rdepends|
        invariant Value() == s' && free
        invariant forall k | 0 <= k < i :: !MustRepair(db, s', n, db.names[n].rdepends[k])
      {
        var broken := IsBroken(n, db.names[n].rdepends[i]);
        if broken {
          free := false;
          break;
        }
      }
      name[n] := oldns;
      assert name[..] == s.name;
    }

    method Autoclean(deps: seq<Dependency>)
      requires Ready({}) && ValidDeps(db, deps)
      modifies this, name
      ensures Value() == Solver.Autoclean(db, old(Value()), deps)
    {
      ghost var s := Value();
      for i := 0 to |deps|
        invariant Ready({})
        invariant Solver.Autoclean(db, Value(), deps[i..]) == Solver.Autoclean(db, s, deps)
      {
        var n := deps[i].name;
        assert deps[i..][0] == deps[i] && deps[i..][1..] == deps[i + 1..];
        if !name[n].Locked? && !db.names[n].toplevel {
          var free := TryWithout(n);
          if free {
            var _ := LockName(n, None, {});
          }
        }
      }
      assert deps[|deps|..] == [];
    }

    /** The first loop of a commit, over a change list that grows on the way. */
    method CommitClean()
      requires Ready({})
      modifies this, name
      ensures Value() == Solver.CommitClean(db, old(Value()), 0)
    {
      ghost var s := Value();
      var i := 0;
      while i < |changes|
        invariant Ready({}) && i <= |changes|
        invariant Solver.CommitClean(db, Value(), i) == Solver.CommitClean(db, s, 0)
        decreases Measure(Value(), {}), |changes| - i
      {
        var c := changes[i];
        assert ChangeOk(db, Value().changes[i]);
        if c.oldpkg.Some? {
          Autoclean(db.packages[c.oldpkg.value].depends);
        }
        i := i + 1;
      }
    }

    /** What the commands do before they commit: every request is tried, failures are counted. */
    method LockAll(deps: seq<Dependency>) returns (errors: nat)
      requires Ready({}) && ValidDeps(db, deps)
      modifies this, name
      ensures (Value(), errors) == Solver.LockAll(db, old(Value()), deps)
    {
      assert name.Length == |db.names|;
      hide Measure, Inv, Solver.LockDependency, Valid;
      ghost var all := Solver.LockAll(db, Value(), deps);
      errors := 0;
      for i := 0 to |deps|
        invariant Ready({})
        invariant Solver.LockAll(db, Value(), deps[i..]).0 == all.0
        invariant errors + Solver.LockAll(db, Value(), deps[i..]).1 == all.1
      {
        assert deps[i..][0] == deps[i] && deps[i..][1..] == deps[i + 1..];
        var r := LockDependency(deps[i], {});
        if r != 0 { errors := errors + 1; }
      }
      assert deps[|deps|..] == [];
    }
  }

  lemma SwapPruneStep(db: Db, c: seq<PkgId>, i: nat, t: Test)
    requires i <= |c| && Known(db, c) && forall k | 0 <= k < i :: Passes(db, c[k], t)
    ensures
      SwapPrune(db, c, i, t) ==
        if i == |c| then c
        else if Passes(db, c[i], t) then SwapPrune(db, c, i + 1, t)
        else SwapPrune(db, c[i := c[|c| - 1]][..|c| - 1], i, t)
  {
  }
}
