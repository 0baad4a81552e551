/** Which candidate is locked: the installed one if it may stay, or else the best that policy admits. */
module SolverChoice {
  import opened Wrappers
  import opened Version
  import opened VersionOrder
  import opened Solver
  import opened SolverClosure

  // ----- Pruning drops exactly the failing candidates -----

  lemma {:induction false} SwapPruneIsExact(db: Db, c: seq<PkgId>, i: nat, t: Test, p: PkgId)
    requires i <= |c| && Known(db, c) && p < |db.packages|
    requires forall k | 0 <= k < i :: Passes(db, c[k], t)
    ensures multiset(SwapPrune(db, c, i, t))[p] == if Passes(db, p, t) then multiset(c)[p] else 0
    decreases |c| - i
  {
    hide Compare;
    if i == |c| {
      if p in c {
        var k :| 0 <= k < |c| && c[k] == p;
        assert Passes(db, c[k], t);
      }
    } else if Passes(db, c[i], t) {
      SwapPruneIsExact(db, c, i + 1, t, p);
    } else {
      SwapDrops(c, i);
      SwapPruneIsExact(db, c[i := c[|c| - 1]][..|c| - 1], i, t, p);
    }
  }

  lemma SwapDrops(c: seq<PkgId>, i: nat)
    requires i < |c|
    ensures multiset(c[i := c[|c| - 1]][..|c| - 1]) == multiset(c) - multiset{c[i]}
  {
    var last := c[|c| - 1];
    if i == |c| - 1 {
      assert c == c[..i] + [last] && c[i := last][..i] == c[..i];
    } else {
      var a, b := c[..i], c[i + 1..|c| - 1];
      assert c == a + [c[i]] + b + [last];
      assert c[i := last][..|c| - 1] == a + [last] + b;
      DropOne(a, c[i], b, last);
    }
  }

  lemma DropOne(a: seq<PkgId>, x: PkgId, b: seq<PkgId>, y: PkgId)
    ensures multiset(a + [y] + b) == multiset(a + [x] + b + [y]) - multiset{x}
  {
    var m := multiset(a) + multiset(b) + multiset{y};
    assert multiset(a + [y] + b) == m;
    assert multiset(a + [x] + b + [y]) == m + multiset{x};
  }

  lemma PruneKeeps(db: Db, c: seq<PkgId>, t: Test, p: PkgId)
    requires Known(db, c) && p < |db.packages|
    ensures p in SwapPrune(db, c, 0, t) <==> p in c && Passes(db, p, t)
  {
    SwapPruneIsExact(db, c, 0, t, p);
    assert p in SwapPrune(db, c, 0, t) <==> p in multiset(SwapPrune(db, c, 0, t));
    assert p in c <==> p in multiset(c);
  }

  predicate MeetsWorld(db: Db, n: NameId, p: PkgId, from: nat)
    requires from <= |db.world| && p < |db.packages|
  {
    forall i | from <= i < |db.world| && db.world[i].name == n :: Sat(db, p, db.world[i])
  }

  lemma {:induction false} WorldPruneKeeps(db: Db, n: NameId, c: seq<PkgId>, i: nat, p: PkgId)
    requires i <= |db.world| && Known(db, c) && p < |db.packages|
    ensures p in WorldPrune(db, n, c, i) <==> p in c && MeetsWorld(db, n, p, i)
    decreases |db.world| - i
  {
    if i < |db.world| {
      var c' := if db.world[i].name == n then SwapPrune(db, c, 0, Meets(db.world[i])) else c;
      PruneKeeps(db, c, Meets(db.world[i]), p);
      WorldPruneKeeps(db, n, c', i + 1, p);
    }
  }

  /** A package of the name that may be chosen for `d`: one that can be had and may be installed. */
  predicate Eligible(db: Db, d: Dependency, p: PkgId)
    requires Valid(db) && d.name < |db.names|
  {
    && p in db.names[d.name].pkgs && p < |db.packages|
    && var pkg := db.packages[p];
       && !pkg.filename.Uninstallable?
       && (pkg.installed || pkg.installedSize == 0 || !pkg.filename.NoFile? || pkg.fetchable)
       && Sat(db, p, d)
       && (db.names[d.name].toplevelOverride || MeetsWorld(db, d.name, p, 0))
  }

  lemma CandidatesAreEligible(db: Db, d: Dependency, p: PkgId)
    requires Valid(db) && d.name < |db.names| && InitialChoices(db, d.name).Choices?
    ensures
      var c := SwapPrune(db, InitialChoices(db, d.name).pkgs, 0, Meets(d));
      p in c && Available(db, p) <==> Eligible(db, d, p)
  {
    var pkgs := db.names[d.name].pkgs;
    if p < |db.packages| {
      PruneKeeps(db, pkgs, IsInstallable, p);
      WorldPruneKeeps(db, d.name, SwapPrune(db, pkgs, 0, IsInstallable), 0, p);
      PruneKeeps(db, InitialChoices(db, d.name).pkgs, Meets(d), p);
    }
  }

  // ----- The loop keeps the best available candidate -----

  predicate Versioned(db: Db, c: seq<PkgId>)
    requires Known(db, c)
  {
    forall i | 0 <= i < |c| :: db.packages[c[i]].version.Some?
  }

  /** `q` is to be preferred: it is in a repository and `p` is not, where that counts, or else newer. */
  predicate Preferred(db: Db, n: NameId, q: PkgId, p: PkgId)
    requires n < |db.names| && q < |db.packages| && p < |db.packages|
  {
    var here, there := db.packages[q].repos != 0, db.packages[p].repos != 0;
    if (db.preferAvailable || db.names[n].reinstall) && here != there then here
    else Compare(db.packages[q].version, db.packages[p].version) == GREATER
  }

  ghost predicate BestOf(db: Db, n: NameId, c: seq<PkgId>, k: nat, latest: Option<PkgId>)
    requires n < |db.names| && k <= |c| && Known(db, c)
  {
    && (latest.Some? ==> latest.value in c && latest.value < |db.packages| && Available(db, latest.value) &&
                         db.packages[latest.value].version.Some?)
    && forall j | 0 <= j < k && Available(db, c[j]) :: latest.Some? && !Preferred(db, n, c[j], latest.value)
  }

  lemma {:induction false} PickIsBest(
    db: Db, n: NameId, c: seq<PkgId>, i: nat, installed: Option<PkgId>, latest: Option<PkgId>)
    requires i <= |c| && n < |db.names| && PkgsOf(db, n, c) && Versioned(db, c)
    requires (installed.Some? ==> installed.value in c) && BestOf(db, n, c, i, latest)
    ensures BestOf(db, n, c, |c|, Pick(db, n, c, i, installed, latest).1)
    decreases |c| - i
  {
    hide Compare, Preferred;
    if i < |c| {
      var p := c[i];
      if !Available(db, p) {
        PickIsBest(db, n, c, i + 1, installed, latest);
      } else {
        var best := Better(db, n, p, latest);
        forall j | 0 <= j <= i && Available(db, c[j])
          ensures !Preferred(db, n, c[j], best)
        {
          BetterKeepsOrder(db, n, p, latest, c[j]);
        }
        PickIsBest(db, n, c, i + 1, if db.packages[p].installed then Some(p) else installed, Some(best));
      }
    }
  }

  lemma BetterKeepsOrder(db: Db, n: NameId, p: PkgId, latest: Option<PkgId>, q: PkgId)
    requires n < |db.names| && p < |db.packages| && q < |db.packages|
    requires db.packages[p].version.Some? && db.packages[q].version.Some?
    requires latest.Some? ==> latest.value < |db.packages| && db.packages[latest.value].version.Some?
    requires q == p || (latest.Some? && !Preferred(db, n, q, latest.value))
    ensures !Preferred(db, n, q, Better(db, n, p, latest))
  {
    hide CompareVersions;
    var vp, vq := db.packages[p].version.value, db.packages[q].version.value;
    CompareIsAntisymmetric(vp, vp);
    if latest.Some? && q != p {
      var vl := db.packages[latest.value].version.value;
      CompareIsAntisymmetric(vp, vl);
      if CompareVersions(vp, vl) == GREATER && CompareVersions(vq, vl) != GREATER { CompareIsTransitive(vq, vl, vp); }
    }
  }

  /** Whatever the versions: the choice is an available candidate, and there is one if any is. */
  lemma {:induction false} PickIsAvailable(
    db: Db, n: NameId, c: seq<PkgId>, i: nat, installed: Option<PkgId>, latest: Option<PkgId>)
    requires i <= |c| && n < |db.names| && PkgsOf(db, n, c)
    requires installed.Some? ==> installed.value in c && db.packages[installed.value].installed
    requires latest.Some? ==> latest.value in c && Available(db, latest.value)
    requires installed.Some? || (exists j | 0 <= j < i :: Available(db, c[j])) ==> latest.Some?
    ensures
      var (installed', latest') := Pick(db, n, c, i, installed, latest);
      && (latest'.Some? ==> latest'.value in c && Available(db, latest'.value))
      && (installed'.Some? ==> installed'.value in c && db.packages[installed'.value].installed)
      && (latest'.None? ==> installed'.None? && forall j | 0 <= j < |c| :: !Available(db, c[j]))
    decreases |c| - i
  {
    hide Better;
    if i < |c| {
      var p := c[i];
      if Available(db, p) {
        PickIsAvailable(db, n, c, i + 1, if db.packages[p].installed then Some(p) else installed, Some(Better(db, n, p, latest)));
      } else {
        PickIsAvailable(db, n, c, i + 1, installed, latest);
      }
    }
  }

  /** The only installed candidate is found. */
  lemma {:induction false} PickFindsInstalled(
    db: Db, n: NameId, c: seq<PkgId>, i: nat, installed: Option<PkgId>, latest: Option<PkgId>, p: PkgId)
    requires i <= |c| && n < |db.names| && PkgsOf(db, n, c)
    requires (installed.Some? ==> installed.value in c) && (latest.Some? ==> latest.value in c)
    requires p < |db.packages| && db.packages[p].installed && p in c
    requires forall j | 0 <= j < |c| && db.packages[c[j]].installed :: c[j] == p
    requires if p in c[..i] then installed == Some(p) else installed.None?
    ensures Pick(db, n, c, i, installed, latest).0 == Some(p)
    decreases |c| - i
  {
    hide Better;
    if i < |c| {
      assert c[..i + 1] == c[..i] + [c[i]];
      var q := c[i];
      if Available(db, q) {
        PickFindsInstalled(db, n, c, i + 1, if db.packages[q].installed then Some(q) else installed, Some(Better(db, n, q, latest)), p);
      } else {
        PickFindsInstalled(db, n, c, i + 1, installed, latest, p);
      }
    } else {
      assert c[..i] == c;
    }
  }

  // ----- What is locked -----

  /** `p` is eligible, and no eligible package is to be preferred. */
  ghost predicate Best(db: Db, d: Dependency, p: PkgId)
    requires Valid(db) && d.name < |db.names|
  {
    Eligible(db, d, p) && forall q | Eligible(db, d, q) :: !Preferred(db, d.name, q, p)
  }

  /** Without APK_UPGRADE, the one installed package stays, unless it is to be reinstalled and no
      repository has it. */
  ghost predicate Stays(db: Db, d: Dependency, p: PkgId)
    requires Valid(db) && d.name < |db.names|
  {
    && !db.upgrade && Eligible(db, d, p) && db.packages[p].installed
    && (db.packages[p].repos != 0 || !db.names[d.name].reinstall)
    && forall q | q in db.names[d.name].pkgs && db.packages[q].installed :: q == p
  }

  /** No installed package stands in the way of the best one. */
  ghost predicate BestWanted(db: Db, d: Dependency)
    requires Valid(db) && d.name < |db.names|
  {
    db.upgrade ||
    forall q: PkgId | Eligible(db, d, q) && db.packages[q].installed :: db.packages[q].repos == 0 && db.names[d.name].reinstall
  }

  /** What ought to be chosen for `d`. */
  ghost predicate Right(db: Db, d: Dependency, p: PkgId)
    requires Valid(db) && d.name < |db.names|
  {
    && Eligible(db, d, p)
    && (forall q: PkgId | Stays(db, d, q) :: q == p)
    && (BestWanted(db, d) && Versioned(db, db.names[d.name].pkgs) ==> Best(db, d, p))
  }

  /** What pruning leaves to be locked. */
  function Chosen(db: Db, s: State, d: Dependency): Option<PkgId>
    requires Valid(db) && Inv(db, s, {}) && d.name < |db.names|
  {
    match Prune(db, s, d).0.name[d.name]
    case Locked(q, _, _) => q
    case Choices(c) => Choose(db, d.name, c)
    case Empty => None
  }

  /** A request for an untouched name locks the right package, and fails if there is none. */
  lemma LocksTheRightOne(db: Db, s: State, open: set<NameId>, d: Dependency) returns (use: Option<PkgId>)
    requires Ready(db, s, open) && d.name < |s.name| && s.name[d.name].Empty? && d.mask != CONFLICT
    ensures use.None? ==> (forall p: PkgId :: !Eligible(db, d, p)) && LockDependency(db, s, open, d).1 == -1
    ensures use.Some? ==> Right(db, d, use.value)
    ensures Prune(db, s, d).1 > 0 ==> use == Chosen(db, s, d)
    ensures use.Some? ==>
              var s1 := s.Set(d.name, Prune(db, s, d).0.name[d.name]);
              && Ready(db, s1, open) && CanLock(db, s1, d.name, use)
              && LockDependency(db, s, open, d) == LockName(db, s1, open, d.name, use)
  {
    hide LockName, Compare, Choose, Right, Eligible, Best, Stays, BestWanted;
    var n := d.name;
    var (s1, r1) := Prune(db, s, d);
    if InitialChoices(db, n).Locked? {
      NothingEligible(db, d);
      return None;
    }
    var c := SwapPrune(db, InitialChoices(db, n).pkgs, 0, Meets(d));
    CandidatesAre(db, d, c);
    assert Inv(db, s1, open);
    if |c| == 1 && Available(db, c[0]) {
      use := Some(c[0]);
      OnlyOneIsRight(db, d, c);
    } else if |c| <= 1 {
      use := None;
    } else {
      use := Choose(db, n, c);
      ChooseIsRight(db, d, c);
    }
  }

  lemma NothingEligible(db: Db, d: Dependency)
    requires Valid(db) && d.name < |db.names| && InitialChoices(db, d.name).Locked?
    ensures forall p: PkgId :: !Eligible(db, d, p)
  {
  }

  /** The available candidates are the eligible packages. */
  ghost predicate CandidatesFor(db: Db, d: Dependency, c: seq<PkgId>)
    requires Valid(db) && d.name < |db.names|
  {
    PkgsOf(db, d.name, c) && Subset(c, db.names[d.name].pkgs) && forall p: PkgId :: p in c && Available(db, p) <==> Eligible(db, d, p)
  }

  lemma CandidatesAre(db: Db, d: Dependency, c: seq<PkgId>)
    requires Valid(db) && d.name < |db.names| && InitialChoices(db, d.name).Choices?
    requires c == SwapPrune(db, InitialChoices(db, d.name).pkgs, 0, Meets(d))
    ensures CandidatesFor(db, d, c)
  {
    hide Eligible, Available;
    CandidatesAreListed(db, d, c);
    forall p
      ensures p in c && Available(db, p) <==> Eligible(db, d, p)
    {
      CandidatesAreEligible(db, d, p);
    }
  }

  lemma CandidatesAreListed(db: Db, d: Dependency, c: seq<PkgId>)
    requires Valid(db) && d.name < |db.names| && InitialChoices(db, d.name).Choices?
    requires c == SwapPrune(db, InitialChoices(db, d.name).pkgs, 0, Meets(d))
    ensures PkgsOf(db, d.name, c) && Subset(c, db.names[d.name].pkgs)
  {
  }

  lemma VersionNotNewer(db: Db, n: NameId, p: PkgId)
    requires n < |db.names| && p < |db.packages| && db.packages[p].version.Some?
    ensures !Preferred(db, n, p, p)
  {
    CompareIsAntisymmetric(db.packages[p].version.value, db.packages[p].version.value);
  }

  lemma OnlyOneIsRight(db: Db, d: Dependency, c: seq<PkgId>)
    requires Valid(db) && d.name < |db.names| && CandidatesFor(db, d, c) && |c| == 1 && Available(db, c[0])
    ensures Right(db, d, c[0])
  {
    hide Eligible, Preferred, Available;
    assert c[0] in c;
    if Versioned(db, db.names[d.name].pkgs) { VersionNotNewer(db, d.name, c[0]); }
  }

  lemma ChooseIsRight(db: Db, d: Dependency, c: seq<PkgId>)
    requires Valid(db) && d.name < |db.names| && CandidatesFor(db, d, c)
    ensures
      var use := Choose(db, d.name, c);
      if use.Some? then Right(db, d, use.value) else forall p: PkgId :: !Eligible(db, d, p)
  {
    hide Eligible, Preferred, Pick;
    var n := d.name;
    PickIsAvailable(db, n, c, 0, None, None);
    var (installed, latest) := Pick(db, n, c, 0, None, None);
    if Versioned(db, db.names[n].pkgs) { PickIsBest(db, n, c, 0, None, None); }
    forall p: PkgId | Stays(db, d, p)
      ensures installed == Some(p)
    {
      PickFindsInstalled(db, n, c, 0, None, None, p);
    }
  }
}
