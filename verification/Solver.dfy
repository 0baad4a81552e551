/** The dependency solver of apk-tools/src/state.c, as functions from solver state to solver state.
    The class in SolverState.dfy carries the same operations out in place. */
module Solver {
  import opened Wrappers
  import opened Version

  // ----- The package database, which a solve only reads -----

  type NameId = nat
  type PkgId = nat
  /** `version` is None where the source has a NULL pointer. */
  datatype Dependency = Dependency(name: NameId, mask: Mask, version: Option<string>)

  datatype Filename = NoFile | Path(path: string) | Uninstallable

  /** `fetchable`: some repository that is configured and reachable offers the package. */
  datatype Package = Package(
    name: NameId, version: Option<string>, depends: seq<Dependency>, installed: bool,
    filename: Filename, installedSize: nat, repos: nat, fetchable: bool)

  datatype Name = Name(
    pkgs: seq<PkgId>, rdepends: seq<NameId>, toplevel: bool, reinstall: bool, toplevelOverride: bool)

  datatype Db = Db(
    names: seq<Name>, packages: seq<Package>, world: seq<Dependency>, upgrade: bool, preferAvailable: bool)

  ghost predicate ValidDeps(db: Db, deps: seq<Dependency>) {
    forall i | 0 <= i < |deps| :: deps[i].name < |db.names|
  }

  predicate PkgOf(db: Db, n: NameId, p: PkgId) {
    p < |db.packages| && db.packages[p].name == n
  }

  predicate PkgsOf(db: Db, n: NameId, c: seq<PkgId>) {
    forall i | 0 <= i < |c| :: PkgOf(db, n, c[i])
  }

  predicate Known(db: Db, c: seq<PkgId>) {
    forall i | 0 <= i < |c| :: c[i] < |db.packages|
  }

  /** Name and package numbers are in range, and a name lists packages of that name only. */
  ghost predicate Valid(db: Db) {
    && (forall p | 0 <= p < |db.packages| ::
          db.packages[p].name < |db.names| && ValidDeps(db, db.packages[p].depends))
    && (forall n | 0 <= n < |db.names| ::
          && PkgsOf(db, n, db.names[n].pkgs)
          && forall i | 0 <= i < |db.names[n].rdepends| :: db.names[n].rdepends[i] < |db.names|)
  }

  /** `outcome & mask` is not zero. */
  predicate Accepts(mask: Mask, outcome: int) {
    if outcome == EQUAL then mask % 2 == 1
    else if outcome == LESS then (mask / 2) % 2 == 1
    else if outcome == GREATER then mask / 4 == 1
    else mask != 0
  }

  /** The version of `p` is one that `d` accepts; a conflict accepts none. */
  predicate Sat(db: Db, p: PkgId, d: Dependency)
    requires p < |db.packages|
  {
    Accepts(d.mask, Compare(db.packages[p].version, d.version))
  }

  predicate Available(db: Db, p: PkgId)
    requires p < |db.packages|
  {
    var pkg := db.packages[p];
    pkg.installed || pkg.installedSize == 0 || !pkg.filename.NoFile? || pkg.fetchable
  }

  // ----- The solver state -----

  /** Locked(None, ..) means "not installed"; the source packs the three flags into pointer bits. */
  datatype NameState =
    | Empty
    | Choices(pkgs: seq<PkgId>)
    | Locked(pkg: Option<PkgId>, pending: bool, error: bool)
  {
    predicate Unlocked() { !Locked? || pending }
    predicate Settled() { Locked? && !pending && !error }
    /** No package will be provided: a later requirement of this name must fail. */
    predicate Bad() { Locked? && !pending && (error || pkg.None?) }
    function Selected(): Option<PkgId> { if Locked? then pkg else None }
  }

  datatype Change = Change(oldpkg: Option<PkgId>, newpkg: Option<PkgId>)

  datatype State = State(
    name: seq<NameState>, changes: seq<Change>, conflicts: seq<PkgId>, missing: seq<NameId>)
  {
    function Set(n: NameId, ns: NameState): State
      requires n < |name|
    {
      this.(name := name[n := ns])
    }
  }

  function Fresh(db: Db): State {
    State(seq(|db.names|, _ => Empty), [], [], [])
  }

  ghost predicate NameStateOk(db: Db, n: NameId, ns: NameState) {
    match ns
    case Empty => true
    case Choices(c) => PkgsOf(db, n, c)
    case Locked(q, pending, error) =>
      (q.Some? ==> PkgOf(db, n, q.value)) && (error ==> q.Some? && !pending)
  }

  predicate ChangeOk(db: Db, c: Change) {
    && (c.oldpkg.Some? || c.newpkg.Some?)
    && (c.oldpkg.Some? ==> c.oldpkg.value < |db.packages|)
    && (c.newpkg.Some? ==> c.newpkg.value < |db.packages|)
  }

  /** `open` holds the names for which locking a package is under way further up the call stack;
      such a name keeps its lock, or loses it to a deletion. */
  ghost predicate Inv(db: Db, s: State, open: set<NameId>) {
    && |s.name| == |db.names|
    && (forall n | 0 <= n < |s.name| :: NameStateOk(db, n, s.name[n]))
    && (forall i | 0 <= i < |s.changes| :: ChangeOk(db, s.changes[i]))
    && (forall n | n in open :: n < |s.name| && s.name[n].Settled())
  }

  /** How far a name can still move: unlocked, locked, deleted while open, error, not installed. */
  ghost function Rank(s: State, open: set<NameId>, n: NameId): nat
    requires n < |s.name|
  {
    var ns := s.name[n];
    if ns.Unlocked() then 4
    else if ns.error then 1
    else if ns.pkg.Some? then 3
    else if n in open then 2
    else 0
  }

  /** No name has moved up. */
  ghost predicate Below(s': State, open': set<NameId>, s: State, open: set<NameId>) {
    |s'.name| == |s.name| && forall n | 0 <= n < |s.name| :: Rank(s', open', n) <= Rank(s, open, n)
  }

  ghost function MeasureUpTo(s: State, open: set<NameId>, k: nat): nat
    requires k <= |s.name|
  {
    if k == 0 then 0 else MeasureUpTo(s, open, k - 1) + Rank(s, open, k - 1)
  }

  ghost function Measure(s: State, open: set<NameId>): nat { MeasureUpTo(s, open, |s.name|) }

  lemma BelowMeasure(s': State, open': set<NameId>, s: State, open: set<NameId>)
    requires Below(s', open', s, open)
    ensures Measure(s', open') <= Measure(s, open)
    ensures (exists n | 0 <= n < |s.name| :: Rank(s', open', n) < Rank(s, open, n)) ==>
              Measure(s', open') < Measure(s, open)
  {
    BelowMeasureUpTo(s', open', s, open, |s.name|);
  }

  lemma BelowMeasureUpTo(s': State, open': set<NameId>, s: State, open: set<NameId>, k: nat)
    requires Below(s', open', s, open) && k <= |s.name|
    ensures MeasureUpTo(s', open', k) <= MeasureUpTo(s, open, k)
    ensures (exists n | 0 <= n < k :: Rank(s', open', n) < Rank(s, open, n)) ==>
              MeasureUpTo(s', open', k) < MeasureUpTo(s, open, k)
  {
  }

  // ----- Candidates -----

  datatype Test = IsInstallable | Meets(dep: Dependency)

  predicate Passes(db: Db, p: PkgId, t: Test)
    requires p < |db.packages|
  {
    match t
    case IsInstallable => !db.packages[p].filename.Uninstallable?
    case Meets(d) => Sat(db, p, d)
  }

  predicate Subset(r: seq<PkgId>, c: seq<PkgId>) { forall i | 0 <= i < |r| :: r[i] in c }

  /** Every failing entry from `i` on is overwritten by the last one, which is then dropped. */
  function SwapPrune(db: Db, c: seq<PkgId>, i: nat, t: Test): (r: seq<PkgId>)
    requires i <= |c| && Known(db, c)
    requires forall k | 0 <= k < i :: Passes(db, c[k], t)
    ensures |r| <= |c| && Subset(r, c) && forall k | 0 <= k < |r| :: Passes(db, r[k], t)
    decreases |c| - i
  {
    if i == |c| then c
    else if Passes(db, c[i], t) then SwapPrune(db, c, i + 1, t)
    else
      var c' := c[i := c[|c| - 1]][..|c| - 1];
      assert Subset(c', c);
      SwapPrune(db, c', i, t)
  }

  function WorldPrune(db: Db, n: NameId, c: seq<PkgId>, i: nat): (r: seq<PkgId>)
    requires i <= |db.world| && Known(db, c)
    ensures Subset(r, c)
    decreases |db.world| - i
  {
    if i == |db.world| then c
    else WorldPrune(db, n, if db.world[i].name == n then SwapPrune(db, c, 0, Meets(db.world[i])) else c, i + 1)
  }

  function InitialChoices(db: Db, n: NameId): (ns: NameState)
    requires Valid(db) && n < |db.names|
    ensures NameStateOk(db, n, ns) && ns.Unlocked() && (ns.Locked? ==> ns.pkg.None?)
  {
    var pkgs := db.names[n].pkgs;
    if pkgs == [] then Locked(None, true, false)
    else
      var c := SwapPrune(db, pkgs, 0, IsInstallable);
      Choices(if db.names[n].toplevelOverride then c else WorldPrune(db, n, c, 0))
  }

  /** The result is -1 for an error, 0 when the locked entry is fine, and otherwise the number
      of candidates, or 1 for an entry that still has to be locked. */
  function Prune(db: Db, s: State, d: Dependency): (r: (State, int))
    requires Valid(db) && Inv(db, s, {}) && d.name < |db.names|
    ensures Inv(db, r.0, {}) && r.1 >= -1 && r.0.changes == s.changes
    ensures r.0.name == s.name[d.name := r.0.name[d.name]]
    ensures !s.name[d.name].Unlocked() ==> r.0 == s && r.1 <= 0
    ensures r.1 > 0 ==> r.0 == s.Set(d.name, r.0.name[d.name])
    ensures r.1 > 0 ==> r.0.name[d.name].Unlocked() && !r.0.name[d.name].Empty?
    ensures r.1 == 0 ==> r.0 == s && s.name[d.name].Settled() && MetBy(db, s.name[d.name].pkg, d)
    ensures r.1 > 0 && r.0.name[d.name].Locked? ==> MetBy(db, r.0.name[d.name].pkg, d)
    ensures r.1 > 0 && r.0.name[d.name].Choices? ==>
              forall i | 0 <= i < |r.0.name[d.name].pkgs| :: Sat(db, r.0.name[d.name].pkgs[i], d)
  {
    var n := d.name;
    if s.name[n].Empty? && d.mask == CONFLICT then (s.Set(n, Locked(None, true, false)), 1)
    else
      var ns := if s.name[n].Empty? then InitialChoices(db, n) else s.name[n];
      match ns
      case Locked(q, pending, error) =>
        var ok := if pending then 1 else 0;
        if error then (s, -1)
        else if q.None? then
          if d.mask == CONFLICT then (s.Set(n, ns), ok)
          else if pending then (s.Set(n, Locked(None, false, false)).(missing := s.missing + [n]), -1)
          else (s, -1)
        else if !Sat(db, q.value, d) then (s, -1)
        else (s, ok)
      case Choices(c0) =>
        var c := SwapPrune(db, c0, 0, Meets(d));
        if |c| == 1 && Available(db, c[0]) then (s.Set(n, Locked(Some(c[0]), true, false)), 1)
        else if |c| <= 1 then (s.Set(n, Locked(None, true, false)).(missing := s.missing + [n]), -1)
        else (s.Set(n, Choices(c)), |c|)
  }

  /** The loop over the candidates: the installed one and the best one seen so far. */
  function Pick(db: Db, n: NameId, c: seq<PkgId>, i: nat, installed: Option<PkgId>, latest: Option<PkgId>)
      : (r: (Option<PkgId>, Option<PkgId>))
    requires i <= |c| && n < |db.names|
    requires PkgsOf(db, n, c)
    requires latest.Some? ==> latest.value in c
    requires installed.Some? ==> installed.value in c
    ensures r.0.Some? ==> r.0.value in c
    ensures r.1.Some? ==> r.1.value in c
    decreases |c| - i
  {
    if i == |c| then (installed, latest)
    else
      var p := c[i];
      var pkg := db.packages[p];
      if !Available(db, p) then Pick(db, n, c, i + 1, installed, latest)
      else Pick(db, n, c, i + 1, if pkg.installed then Some(p) else installed, Some(Better(db, n, p, latest)))
  }

  function Better(db: Db, n: NameId, p: PkgId, latest: Option<PkgId>): (q: PkgId)
    requires p < |db.packages| && n < |db.names| && (latest.Some? ==> latest.value < |db.packages|)
    ensures q == p || latest == Some(q)
  {
    if latest.None? then p
    else
      var byRepository := db.preferAvailable || db.names[n].reinstall;
      var best, pkg := db.packages[latest.value], db.packages[p];
      if byRepository && best.repos != 0 && pkg.repos == 0 then latest.value
      else if byRepository && best.repos == 0 && pkg.repos != 0 then p
      else if Compare(pkg.version, best.version) == GREATER then p
      else latest.value
  }

  function Choose(db: Db, n: NameId, c: seq<PkgId>): (use: Option<PkgId>)
    requires n < |db.names| && PkgsOf(db, n, c)
    ensures use.Some? ==> use.value in c
  {
    var (installed, latest) := Pick(db, n, c, 0, None, None);
    if db.upgrade then latest
    else if installed.Some? && (db.packages[installed.value].repos != 0 || !db.names[n].reinstall) then installed
    else latest
  }

  // ----- Locking, and the repairs that it sets off -----

  /** The first installed package of a list, and the last one. */
  function FirstInstalled(db: Db, c: seq<PkgId>): (r: Option<PkgId>)
    requires Known(db, c)
    ensures r.Some? ==> r.value in c && db.packages[r.value].installed
    ensures r.None? ==> forall p | p in c :: !db.packages[p].installed
  {
    if c == [] then None
    else if db.packages[c[0]].installed then Some(c[0])
    else FirstInstalled(db, c[1..])
  }

  function LastInstalled(db: Db, c: seq<PkgId>): (r: Option<PkgId>)
    requires Known(db, c)
    ensures r.Some? ==> r.value in c && db.packages[r.value].installed
    ensures r.None? ==> forall p | p in c :: !db.packages[p].installed
  {
    if c == [] then None
    else if db.packages[c[|c| - 1]].installed then Some(c[|c| - 1])
    else LastInstalled(db, c[..|c| - 1])
  }

  function Installed(db: Db, n: NameId): (r: Option<PkgId>)
    requires Valid(db) && n < |db.names|
    ensures r.Some? ==> PkgOf(db, n, r.value) && db.packages[r.value].installed
  {
    LastInstalled(db, db.names[n].pkgs)
  }

  /** With `sel` chosen for the name of `d`, the dependency holds. */
  predicate MetBy(db: Db, sel: Option<PkgId>, d: Dependency)
    requires sel.Some? ==> sel.value < |db.packages|
  {
    if sel.None? then d.mask == CONFLICT else Sat(db, sel.value, d)
  }

  /** Some dependency of `p` on `n` does not hold under the choice made for `n`. */
  predicate Broken(db: Db, s: State, p: PkgId, n: NameId)
    requires Valid(db) && Inv(db, s, {}) && p < |db.packages| && n < |db.names|
  {
    exists k | 0 <= k < |db.packages[p].depends| ::
      db.packages[p].depends[k].name == n && !MetBy(db, s.name[n].Selected(), db.packages[p].depends[k])
  }

  /** The package that stands for `n` when its dependencies are examined. */
  function Representative(db: Db, s: State, n: NameId): (r: Option<PkgId>)
    requires Valid(db) && Inv(db, s, {}) && n < |db.names|
    ensures r.Some? ==> PkgOf(db, n, r.value)
    ensures r.Some? ==> s.name[n].Selected() == r || !s.name[n].Locked?
  {
    match s.name[n]
    case Locked(q, _, _) => q
    case Choices(c) => FirstInstalled(db, c)
    case Empty => FirstInstalled(db, db.names[n].pkgs)
  }

  /** The callback for the dependant `m` of a name: delete it, or require it again. */
  predicate MustRepair(db: Db, s: State, n: NameId, m: NameId)
    requires Valid(db) && Inv(db, s, {}) && n < |db.names| && m < |db.names|
  {
    var p := Representative(db, s, m);
    p.Some? && Broken(db, s, p.value, n)
  }

  lemma MustRepairCanLock(db: Db, s: State, n: NameId, m: NameId)
    requires Valid(db) && Inv(db, s, {}) && n < |db.names| && m < |db.names| && MustRepair(db, s, n, m)
    ensures CanLock(db, s, m, None)
  {
  }

  function LockDependency(db: Db, s: State, ghost open: set<NameId>, d: Dependency): (r: (State, int))
    requires Valid(db) && Inv(db, s, open) && d.name < |db.names|
    ensures Inv(db, r.0, open) && Below(r.0, open, s, open) && s.changes <= r.0.changes && r.1 in {0, -1}
    decreases Measure(s, open), 2, 0
  {
    var (s1, r) := Prune(db, s, d);
    assert Inv(db, s1, open) && Below(s1, open, s, open);
    BelowMeasure(s1, open, s, open);
    if r <= 0 then (s1, r)
    else match s1.name[d.name]
      case Locked(q, _, _) => LockName(db, s1, open, d.name, q)
      case Choices(c) =>
        var use := Choose(db, d.name, c);
        if use.None? then (s1, -1) else LockName(db, s1, open, d.name, use)
  }

  function FixPackage(db: Db, s: State, ghost open: set<NameId>, deps: seq<Dependency>): (r: (State, int))
    requires Valid(db) && Inv(db, s, open) && ValidDeps(db, deps)
    ensures Inv(db, r.0, open) && Below(r.0, open, s, open) && s.changes <= r.0.changes && r.1 in {0, -1}
    decreases Measure(s, open), 3, |deps|
  {
    if deps == [] then (s, 0)
    else
      var (s1, r1) := LockDependency(db, s, open, deps[0]);
      BelowMeasure(s1, open, s, open);
      var (s2, r2) := FixPackage(db, s1, open, deps[1..]);
      (s2, if r1 != 0 then -1 else r2)
  }

  /** Repairs the dependants of `n` from the i-th on; when `n` was removed they are deleted. */
  function RepairDependants(db: Db, s: State, ghost open: set<NameId>, n: NameId, removed: bool, i: nat)
      : (r: (State, int))
    requires Valid(db) && Inv(db, s, open) && n < |db.names| && i <= |db.names[n].rdepends|
    ensures Inv(db, r.0, open) && Below(r.0, open, s, open) && s.changes <= r.0.changes && r.1 in {0, -1} && (removed ==> r.1 == 0)
    decreases Measure(s, open), 3, |db.names[n].rdepends| - i
  {
    if i == |db.names[n].rdepends| then (s, 0)
    else
      var m := db.names[n].rdepends[i];
      if !MustRepair(db, s, n, m) then RepairDependants(db, s, open, n, removed, i + 1)
      else
        var (s1, r1) :=
          if removed then LockName(db, s, open, m, None)
          else LockDependency(db, s, open, Dependency(m, REQUIRE, None));
        BelowMeasure(s1, open, s, open);
        if r1 != 0 then (s1, r1) else RepairDependants(db, s1, open, n, removed, i + 1)
  }

  function RecordConflict(s: State, n: NameId, p: PkgId): State
    requires n < |s.name|
  {
    s.Set(n, Locked(Some(p), false, true)).(conflicts := s.conflicts + [p])
  }

  ghost predicate CanLock(db: Db, s: State, n: NameId, p: Option<PkgId>)
    requires n < |s.name|
  {
    if p.None? then !(s.name[n].Settled() && s.name[n].pkg.None?)
    else s.name[n].Unlocked() && PkgOf(db, n, p.value)
  }

  lemma LockBegins(db: Db, s: State, open: set<NameId>, n: NameId, p: Option<PkgId>)
    requires Valid(db) && Inv(db, s, open) && n < |db.names| && CanLock(db, s, n, p)
    ensures
      var s1, open1 := s.Set(n, Locked(p, false, false)), OpenWith(open, n, p);
      Inv(db, s1, open1) && Below(s1, open1, s, open) && Measure(s1, open1) < Measure(s, open)
  {
    var s1, open1 := s.Set(n, Locked(p, false, false)), OpenWith(open, n, p);
    assert Rank(s1, open1, n) < Rank(s, open, n);
    BelowMeasure(s1, open1, s, open);
  }

  ghost function OpenWith(open: set<NameId>, n: NameId, p: Option<PkgId>): set<NameId> {
    if p.Some? then open + {n} else open
  }

  lemma LockEnds(db: Db, s: State, open: set<NameId>, n: NameId, p: Option<PkgId>)
    requires Valid(db) && n < |s.name| && (p.Some? ==> PkgOf(db, n, p.value) && n !in open)
    requires Inv(db, s, OpenWith(open, n, p))
    ensures Inv(db, s, open) && Below(s, open, s, OpenWith(open, n, p))
    ensures p.Some? ==> Inv(db, RecordConflict(s, n, p.value), open)
    ensures p.Some? ==> Below(RecordConflict(s, n, p.value), open, s, OpenWith(open, n, p))
  {
  }

  /** Locking a name to "not installed" never fails, so the source's use of the package in its
      conflict record is safe. */
  function LockName(db: Db, s: State, ghost open: set<NameId>, n: NameId, p: Option<PkgId>): (r: (State, int))
    requires Valid(db) && Inv(db, s, open) && n < |db.names| && CanLock(db, s, n, p)
    ensures Inv(db, r.0, open) && Below(r.0, open, s, open) && s.changes <= r.0.changes && r.1 in {0, -1}
    ensures p.None? ==> r.1 == 0
    decreases Measure(s, open), 1, 0
  {
    LockBegins(db, s, open, n, p);
    var s1 := s.Set(n, Locked(p, false, false));
    ghost var open1 := OpenWith(open, n, p);
    if Installed(db, n).Some? then
      var (s2, r2) := RepairDependants(db, s1, open1, n, p.None?, 0);
      BelowMeasure(s2, open1, s1, open1);
      if r2 != 0 then
        LockEnds(db, s2, open, n, p);
        (RecordConflict(s2, n, p.value), r2)
      else Complete(db, s2, open, n, p)
    else Complete(db, s1, open, n, p)
  }

  /** The rest of locking a name: the package's own dependencies, and the change. */
  function Complete(db: Db, s: State, ghost open: set<NameId>, n: NameId, p: Option<PkgId>): (r: (State, int))
    requires Valid(db) && n < |db.names| && (p.Some? ==> PkgOf(db, n, p.value) && n !in open)
    requires Inv(db, s, OpenWith(open, n, p))
    ensures Inv(db, r.0, open) && Below(r.0, open, s, OpenWith(open, n, p)) && s.changes <= r.0.changes
    ensures r.1 in {0, -1} && (p.None? ==> r.1 == 0)
    decreases Measure(s, OpenWith(open, n, p)), 4, 0
  {
    if p.None? then (Record(db, s, n, p), 0)
    else
      var (s1, r1) := FixPackage(db, s, OpenWith(open, n, p), db.packages[p.value].depends);
      LockEnds(db, s1, open, n, p);
      if r1 != 0 then (RecordConflict(s1, n, p.value), r1) else (Record(db, s1, n, p), 0)
  }

  /** Nothing is recorded for a package that is installed already and need not be reinstalled. */
  function Record(db: Db, s: State, n: NameId, p: Option<PkgId>): State
    requires Valid(db) && n < |db.names|
  {
    if Installed(db, n) == p && (p.None? || !db.names[n].reinstall) then s
    else s.(changes := s.changes + [Change(Installed(db, n), p)])
  }

  // ----- Whole solves -----

  /** Requests are tried in turn, whatever came of the earlier ones; the failures are counted. */
  function LockAll(db: Db, s: State, deps: seq<Dependency>): (r: (State, nat))
    requires Valid(db) && Inv(db, s, {}) && ValidDeps(db, deps)
    ensures Inv(db, r.0, {})
    decreases deps
  {
    if deps == [] then (s, 0)
    else
      var (s1, r1) := LockDependency(db, s, {}, deps[0]);
      var (s2, errors) := LockAll(db, s1, deps[1..]);
      (s2, if r1 == 0 then errors else errors + 1)
  }

  /** With `n` taken away no dependant of it would have to be repaired. */
  predicate NotNeeded(db: Db, s: State, n: NameId)
    requires Valid(db) && Inv(db, s, {}) && n < |db.names|
  {
    var s' := s.Set(n, Locked(None, true, false));
    assert Inv(db, s', {});
    forall i | 0 <= i < |db.names[n].rdepends| :: !MustRepair(db, s', n, db.names[n].rdepends[i])
  }

  /** Removes what only a replaced package needed. */
  function Autoclean(db: Db, s: State, deps: seq<Dependency>): (s': State)
    requires Valid(db) && Inv(db, s, {}) && ValidDeps(db, deps)
    ensures Inv(db, s', {}) && Below(s', {}, s, {}) && s.changes <= s'.changes
    ensures s' == s || Measure(s', {}) < Measure(s, {})
    decreases deps
  {
    if deps == [] then s
    else
      var n := deps[0].name;
      if s.name[n].Locked? || db.names[n].toplevel || !NotNeeded(db, s, n) then Autoclean(db, s, deps[1..])
      else
        LockRemoves(db, s, n);
        var (s1, _) := LockName(db, s, {}, n, None);
        BelowMeasure(Autoclean(db, s1, deps[1..]), {}, s1, {});
        Autoclean(db, s1, deps[1..])
  }

  lemma LockRemoves(db: Db, s: State, n: NameId)
    requires Valid(db) && Inv(db, s, {}) && n < |db.names| && !s.name[n].Locked?
    ensures Measure(LockName(db, s, {}, n, None).0, {}) < Measure(s, {})
  {
    LockBegins(db, s, {}, n, None);
    var s1 := s.Set(n, Locked(None, false, false));
    BelowMeasure(LockName(db, s, {}, n, None).0, {}, s1, {});
  }

  /** The first loop of a commit: it walks the change list while autoclean extends it. */
  function CommitClean(db: Db, s: State, i: nat): (s': State)
    requires Valid(db) && Inv(db, s, {}) && i <= |s.changes|
    ensures Inv(db, s', {})
    decreases Measure(s, {}), |s.changes| - i
  {
    if i == |s.changes| then s
    else
      var c := s.changes[i];
      var s1 := if c.oldpkg.Some? then Autoclean(db, s, db.packages[c.oldpkg.value].depends) else s;
      CommitClean(db, s1, i + 1)
  }
}
