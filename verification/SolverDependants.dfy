/** How the lists of dependants come about, which the solver's repairs go by: adding a package enters
    its name with everything it depends on, but stops at the first list that has the name already. */
module SolverDependants {
  import opened Wrappers
  import opened Version
  import opened Solver
  import opened SolverClosure
  import opened SolverTheorems

  type Lists = seq<seq<NameId>>

  ghost predicate InRange(lists: Lists, deps: seq<Dependency>) {
    forall i | 0 <= i < |deps| :: deps[i].name < |lists|
  }

  function Add(lists: Lists, n: NameId, deps: seq<Dependency>): (r: Lists)
    requires InRange(lists, deps)
    ensures |r| == |lists|
    decreases deps
  {
    if deps == [] || n in lists[deps[0].name] then lists
    else Add(lists[deps[0].name := lists[deps[0].name] + [n]], n, deps[1..])
  }

  class DependantTable {
    const lists: array<seq<NameId>>

    constructor (names: nat)
      ensures fresh(lists) && lists[..] == NoLists(names)
    {
      lists := new seq<NameId>[names](_ => []);
      new;
      assert lists[..] == NoLists(names);
    }

    method AddPackage(n: NameId, deps: seq<Dependency>)
      requires InRange(lists[..], deps)
      modifies lists
      ensures lists[..] == Add(old(lists[..]), n, deps)
    {
      assert deps[0..] == deps;
      for i := 0 to |deps|
        invariant Add(lists[..], n, deps[i..]) == Add(old(lists[..]), n, deps)
      {
        var d := deps[i].name;
        assert deps[i..][0] == deps[i] && deps[i..][1..] == deps[i + 1..];
        ghost var was := lists[..];
        for j := 0 to |lists[d]|
          invariant forall k | 0 <= k < j :: lists[d][k] != n
        {
          if lists[d][j] == n { return; }
        }
        lists[d] := lists[d] + [n];
        assert lists[..] == was[d := was[d] + [n]];
      }
    }
  }

  function NoLists(names: nat): Lists { seq(names, _ => []) }

  // ----- One package -----

  /** The i-th dependency is on a name that has not got `n`, and the first one on it. */
  ghost predicate New(lists: Lists, n: NameId, deps: seq<Dependency>, i: nat)
    requires InRange(lists, deps) && i < |deps|
  {
    n !in lists[deps[i].name] && forall j | 0 <= j < i :: deps[j].name != deps[i].name
  }

  /** Every dependency up to the i-th is. */
  ghost predicate AllNew(lists: Lists, n: NameId, deps: seq<Dependency>, i: nat)
    requires InRange(lists, deps) && i < |deps|
  {
    forall j | 0 <= j <= i :: New(lists, n, deps, j)
  }

  ghost predicate Entered(lists: Lists, n: NameId, deps: seq<Dependency>, k: NameId)
    requires InRange(lists, deps)
  {
    exists i | 0 <= i < |deps| && deps[i].name == k :: AllNew(lists, n, deps, i)
  }

  /** Exactly the dependencies before the stop are entered; nothing else changes. */
  lemma {:induction false} AddsExactly(lists: Lists, n: NameId, deps: seq<Dependency>, m: NameId, k: NameId)
    requires InRange(lists, deps) && k < |lists|
    ensures m in Add(lists, n, deps)[k] <==> m in lists[k] || (m == n && Entered(lists, n, deps, k))
    decreases deps
  {
    if deps != [] {
      var d := deps[0].name;
      if n in lists[d] {
        assert !New(lists, n, deps, 0);
      } else {
        var lists1, rest := lists[d := lists[d] + [n]], deps[1..];
        AddsExactly(lists1, n, rest, m, k);
        assert New(lists, n, deps, 0);
        if k == d {
          assert AllNew(lists, n, deps, 0);
        } else {
          EnteredBehind(lists, n, deps, k);
        }
      }
    }
  }

  lemma EnteredBehind(lists: Lists, n: NameId, deps: seq<Dependency>, k: NameId)
    requires InRange(lists, deps) && deps != [] && n !in lists[deps[0].name] && k != deps[0].name
    ensures
      var lists1 := lists[deps[0].name := lists[deps[0].name] + [n]];
      InRange(lists1, deps[1..]) && (Entered(lists1, n, deps[1..], k) <==> Entered(lists, n, deps, k))
  {
    var lists1, rest := lists[deps[0].name := lists[deps[0].name] + [n]], deps[1..];
    assert New(lists, n, deps, 0);
    forall i | 0 <= i < |rest|
      ensures New(lists1, n, rest, i) <==> New(lists, n, deps, i + 1)
    {
      NewBehind(lists, n, deps, i);
    }
    if Entered(lists1, n, rest, k) {
      var i :| 0 <= i < |rest| && rest[i].name == k && AllNew(lists1, n, rest, i);
      forall j | 0 <= j <= i + 1
        ensures New(lists, n, deps, j)
      {
        if j > 0 { assert New(lists1, n, rest, j - 1); }
      }
      assert AllNew(lists, n, deps, i + 1);
    }
    if Entered(lists, n, deps, k) {
      var i :| 0 <= i < |deps| && deps[i].name == k && AllNew(lists, n, deps, i);
      forall j | 0 <= j <= i - 1
        ensures New(lists1, n, rest, j)
      {
        assert New(lists, n, deps, j + 1);
      }
      assert AllNew(lists1, n, rest, i - 1);
    }
  }

  lemma NewBehind(lists: Lists, n: NameId, deps: seq<Dependency>, i: nat)
    requires InRange(lists, deps) && i < |deps| - 1 && n !in lists[deps[0].name]
    ensures
      var lists1 := lists[deps[0].name := lists[deps[0].name] + [n]];
      InRange(lists1, deps[1..]) && (New(lists1, n, deps[1..], i) <==> New(lists, n, deps, i + 1))
  {
    var rest := deps[1..];
    if New(lists, n, deps, i + 1) {
      assert deps[0].name != deps[i + 1].name;
      forall j | 0 <= j < i
        ensures rest[j].name != rest[i].name
      {
        assert rest[j] == deps[j + 1];
      }
    } else if deps[0].name != deps[i + 1].name && n !in lists[deps[i + 1].name] {
      var j :| 0 <= j < i + 1 && deps[j].name == deps[i + 1].name;
      assert rest[j - 1].name == rest[i].name;
    }
  }

  /** All that the package depends on has it in its list. */
  ghost predicate ListedBy(lists: Lists, n: NameId, deps: seq<Dependency>)
    requires InRange(lists, deps)
  {
    forall i | 0 <= i < |deps| :: n in lists[deps[i].name]
  }

  /** What can be seen before the package is added: no new dependency behind one that is not. */
  ghost predicate NewFirst(lists: Lists, n: NameId, deps: seq<Dependency>)
    requires InRange(lists, deps)
  {
    forall i | 0 <= i < |deps| && New(lists, n, deps, i) :: AllNew(lists, n, deps, i)
  }

  lemma AddListsExactly(lists: Lists, n: NameId, deps: seq<Dependency>)
    requires InRange(lists, deps)
    ensures ListedBy(Add(lists, n, deps), n, deps) <==> NewFirst(lists, n, deps)
  {
    hide Add, New;
    var after := Add(lists, n, deps);
    forall i | 0 <= i < |deps|
      ensures n in after[deps[i].name] <==> n in lists[deps[i].name] || Entered(lists, n, deps, deps[i].name)
    {
      AddsExactly(lists, n, deps, n, deps[i].name);
    }
    if ListedBy(after, n, deps) {
      forall i | 0 <= i < |deps| && New(lists, n, deps, i)
        ensures AllNew(lists, n, deps, i)
      {
        NewIsEntered(lists, n, deps, i);
      }
    }
    if NewFirst(lists, n, deps) {
      forall i | 0 <= i < |deps|
        ensures n in after[deps[i].name]
      {
        if n !in lists[deps[i].name] {
          var k := FirstOn(lists, n, deps, i);
          assert AllNew(lists, n, deps, k);
        }
      }
    }
  }

  lemma NewIsEntered(lists: Lists, n: NameId, deps: seq<Dependency>, i: nat)
    requires InRange(lists, deps) && i < |deps| && New(lists, n, deps, i)
    ensures n !in lists[deps[i].name]
    ensures Entered(lists, n, deps, deps[i].name) ==> AllNew(lists, n, deps, i)
  {
    if Entered(lists, n, deps, deps[i].name) {
      var k :| 0 <= k < |deps| && deps[k].name == deps[i].name && AllNew(lists, n, deps, k);
      assert k >= i;
    }
  }

  /** The first dependency on the name of the i-th. */
  lemma FirstOn(lists: Lists, n: NameId, deps: seq<Dependency>, i: nat) returns (k: nat)
    requires InRange(lists, deps) && i < |deps| && n !in lists[deps[i].name]
    ensures k <= i && deps[k].name == deps[i].name && New(lists, n, deps, k)
    decreases i
  {
    if j :| 0 <= j < i && deps[j].name == deps[i].name {
      k := FirstOn(lists, n, deps, j);
    } else {
      k := i;
    }
  }

  // ----- A whole database -----

  /** The packages are added one after the other. */
  function ListsOf(db: Db, order: seq<PkgId>): (lists: Lists)
    requires Valid(db) && Known(db, order)
    ensures |lists| == |db.names|
  {
    if order == [] then NoLists(|db.names|)
    else
      var p := order[|order| - 1];
      Add(ListsOf(db, order[..|order| - 1]), db.packages[p].name, db.packages[p].depends)
  }

  ghost predicate PackageListed(db: Db, lists: Lists, p: PkgId)
    requires Valid(db) && |lists| == |db.names| && p < |db.packages|
  {
    ListedBy(lists, db.packages[p].name, db.packages[p].depends)
  }

  /** The package, added behind those before it, meets the condition. */
  ghost predicate AddedWell(db: Db, order: seq<PkgId>, i: nat)
    requires Valid(db) && Known(db, order) && i < |order|
  {
    NewFirst(ListsOf(db, order[..i]), db.packages[order[i]].name, db.packages[order[i]].depends)
  }

  /** The lists are complete. */
  ghost predicate Complete(db: Db, order: seq<PkgId>)
    requires Valid(db) && Known(db, order)
  {
    forall i | 0 <= i < |order| :: PackageListed(db, ListsOf(db, order), order[i])
  }

  /** Lists only grow, so that what is complete stays so. */
  lemma AddKeepsListed(db: Db, lists: Lists, p: PkgId, q: PkgId)
    requires Valid(db) && |lists| == |db.names| && p < |db.packages| && q < |db.packages|
    requires PackageListed(db, lists, q)
    ensures PackageListed(db, Add(lists, db.packages[p].name, db.packages[p].depends), q)
  {
    hide Add;
    var n, deps := db.packages[q].name, db.packages[q].depends;
    forall i | 0 <= i < |deps|
      ensures n in Add(lists, db.packages[p].name, db.packages[p].depends)[deps[i].name]
    {
      AddsExactly(lists, db.packages[p].name, db.packages[p].depends, n, deps[i].name);
    }
  }

  /** The lists are complete all the time exactly if every package meets the condition when it is
      its turn; so that suffices for them to be complete in the end. */
  lemma {:induction false} CompleteExactly(db: Db, order: seq<PkgId>)
    requires Valid(db) && Known(db, order)
    ensures (forall k | 0 <= k <= |order| :: Complete(db, order[..k])) <==>
            (forall i | 0 <= i < |order| :: AddedWell(db, order, i))
    decreases order
  {
    hide AddedWell, Complete;
    if order == [] {
      NothingMissing(db, order);
    } else {
      var before := order[..|order| - 1];
      assert order[..|order|] == order;
      CompleteExactly(db, before);
      forall k | 0 <= k <= |before|
        ensures order[..k] == before[..k]
      {
      }
      forall i | 0 <= i < |before|
        ensures AddedWell(db, order, i) == AddedWell(db, before, i)
      {
        SameStart(db, order, before, i);
      }
      if Complete(db, before) { CompleteMore(db, order); }
      assert before[..|before|] == before;
    }
  }

  lemma NothingMissing(db: Db, order: seq<PkgId>)
    requires Valid(db) && order == []
    ensures Complete(db, order[..0])
  {
  }

  lemma SameStart(db: Db, order: seq<PkgId>, before: seq<PkgId>, i: nat)
    requires Valid(db) && Known(db, order) && Known(db, before) && i < |before| <= |order| && before == order[..|before|]
    ensures AddedWell(db, order, i) == AddedWell(db, before, i)
  {
    assert before[..i] == order[..i];
  }

  lemma CompleteMore(db: Db, order: seq<PkgId>)
    requires Valid(db) && Known(db, order) && order != [] && Complete(db, order[..|order| - 1])
    ensures Complete(db, order) <==> AddedWell(db, order, |order| - 1)
  {
    hide NewFirst, ListedBy;
    var before, p := order[..|order| - 1], order[|order| - 1];
    var lists := ListsOf(db, before);
    AddListsExactly(lists, db.packages[p].name, db.packages[p].depends);
    forall i | 0 <= i < |before|
      ensures PackageListed(db, ListsOf(db, order), order[i])
    {
      assert before[i] == order[i];
      AddKeepsListed(db, lists, p, before[i]);
    }
  }

  /** The database has the lists that adding its packages gives. */
  ghost predicate Built(db: Db, order: seq<PkgId>)
    requires Valid(db) && Known(db, order)
  {
    && (forall n | 0 <= n < |db.names| :: db.names[n].rdepends == ListsOf(db, order)[n])
    && (forall p | 0 <= p < |db.packages| && db.packages[p].installed :: p in order)
  }

  /** Then no dependant is missing from the solver's lists, of a requirement or of a conflict. */
  lemma BuiltListsDependants(db: Db, order: seq<PkgId>)
    requires Valid(db) && Known(db, order) && Built(db, order)
    requires forall i | 0 <= i < |order| :: AddedWell(db, order, i)
    ensures DependantsListed(db) && AllListed(db)
  {
    hide AddedWell, ListsOf, Installed;
    CompleteExactly(db, order);
    assert order[..|order|] == order;
    assert Complete(db, order);
    forall n, d | 0 <= n < |db.names| && Installed(db, n).Some? && d in db.packages[Installed(db, n).value].depends
      ensures d.name < |db.names| && n in db.names[d.name].rdepends
    {
      var p := Installed(db, n).value;
      var i :| 0 <= i < |order| && order[i] == p;
      assert PackageListed(db, ListsOf(db, order), order[i]);
      var j :| 0 <= j < |db.packages[p].depends| && db.packages[p].depends[j] == d;
    }
  }

  // ----- Where it fails -----

  /** A name that is depended on twice cuts the rest off. */
  lemma TwiceCutsShort()
    ensures
      var deps := [Dependency(1, REQUIRE, None), Dependency(1, REQUIRE, None), Dependency(2, REQUIRE, None)];
      InRange(NoLists(3), deps) && Add(NoLists(3), 0, deps) == [[], [0], []]
  {
    var d, e := Dependency(1, REQUIRE, None), Dependency(2, REQUIRE, None);
    var deps := [d, d, e];
    assert deps[1..] == [d, e] && deps[0] == d && [d, e][0] == d;
    var none: seq<NameId> := [];
    var lists: Lists := [none, none, none];
    assert NoLists(3) == lists && none + [0] == [0] && lists[1 := none + [0]] == [none, [0], none];
  }

  /** The first version of a package depends on one name, the installed second one on another, too. */
  function MissedDb(): Db {
    var b, c := Dependency(1, REQUIRE, None), Dependency(2, REQUIRE, None);
    Db([Name([0, 1], [], false, false, false), Name([2], [0], false, false, false), Name([3], [], false, false, false)],
       [Package(0, Some("1"), [b], false, NoFile, 0, 0, false), Package(0, Some("2"), [b, c], true, NoFile, 0, 0, false),
        Package(1, Some("1"), [], true, NoFile, 0, 0, false), Package(2, Some("1"), [], true, NoFile, 0, 0, false)],
       [], false, false)
  }

  lemma MissedDbIsValid()
    ensures Valid(MissedDb())
  {
  }

  lemma MissedDbInstalled()
    ensures Valid(MissedDb()) && SingleVersions(MissedDb())
    ensures Installed(MissedDb(), 0) == Some(1) && Installed(MissedDb(), 1) == Some(2) && Installed(MissedDb(), 2) == Some(3)
  {
    MissedDbIsValid();
    hide Valid;
    var db := MissedDb();
    assert [0, 1][1..] == [1] && [1][1..] == [];
    assert FirstInstalled(db, [1]) == Some(1) && FirstInstalled(db, [0, 1]) == Some(1) && LastInstalled(db, [0, 1]) == Some(1);
  }

  lemma MissedDbIsConsistent()
    ensures Valid(MissedDb()) && Consistent(MissedDb())
  {
    MissedDbIsValid();
    MissedDbInstalled();
    hide Valid, SingleVersions, Installed, Sat;
    MissedDbFits();
  }

  lemma MissedDbFits()
    ensures Sat(MissedDb(), 2, Dependency(1, REQUIRE, None)) && Sat(MissedDb(), 3, Dependency(2, REQUIRE, None))
  {
  }

  lemma MissedDbAdds(none: seq<NameId>)
    requires none == []
    ensures
      var b, c := Dependency(1, REQUIRE, None), Dependency(2, REQUIRE, None);
      var l0: Lists, l1: Lists := [none, none, none], [none, [0], none];
      Add(l0, 0, [b]) == l1 && Add(l1, 0, [b, c]) == l1
  {
    var b := Dependency(1, REQUIRE, None);
    var l0: Lists, l1: Lists := [none, none, none], [none, [0], none];
    assert none + [0] == [0] && l0[1 := none + [0]] == l1 && [b][1..] == [];
  }

  lemma ListsMore(db: Db, before: seq<PkgId>, p: PkgId)
    requires Valid(db) && Known(db, before + [p])
    ensures Known(db, before) && p < |db.packages|
    ensures ListsOf(db, before + [p]) == Add(ListsOf(db, before), db.packages[p].name, db.packages[p].depends)
  {
    var order := before + [p];
    assert order[..|order| - 1] == before && order[|order| - 1] == p;
    assert forall i | 0 <= i < |before| :: before[i] == order[i];
  }

  lemma MissedDbLists(db: Db, none: seq<NameId>)
    requires Valid(db) && none == [] && |db.names| == 3 && |db.packages| == 4
    requires
      var b, c := Dependency(1, REQUIRE, None), Dependency(2, REQUIRE, None);
      && db.packages[0].name == 0 && db.packages[0].depends == [b]
      && db.packages[1].name == 0 && db.packages[1].depends == [b, c]
      && db.packages[2].depends == [] && db.packages[3].depends == []
    ensures ListsOf(db, [0, 1, 2, 3]) == [none, [0], none]
  {
    MissedDbAdds(none);
    assert ListsOf(db, []) == [none, none, none];
    hide Valid, ListsOf;
    assert [] + [0] == [0] && [0] + [1] == [0, 1] && [0, 1] + [2] == [0, 1, 2] && [0, 1, 2] + [3] == [0, 1, 2, 3];
    ListsMore(db, [], 0);
    ListsMore(db, [0], 1);
    ListsMore(db, [0, 1], 2);
    ListsMore(db, [0, 1, 2], 3);
  }

  lemma MissedDbIsBuilt()
    ensures Valid(MissedDb()) && Built(MissedDb(), [0, 1, 2, 3])
  {
    MissedDbIsValid();
    hide Valid, ListsOf;
    MissedDbLists(MissedDb(), []);
    assert 0 in [0, 1, 2, 3] && 1 in [0, 1, 2, 3] && 2 in [0, 1, 2, 3] && 3 in [0, 1, 2, 3];
  }

  /** So the lists come to miss a dependant, and the solver removes what an installed package needs. */
  lemma MissedDependantIsBroken()
    ensures
      var db, request := MissedDb(), Dependency(2, CONFLICT, None);
      && Valid(db) && Consistent(db) && Built(db, [0, 1, 2, 3]) && ValidDeps(db, [request])
      && LockAll(db, Fresh(db), [request]).1 == 0
      && var s := LockAll(db, Fresh(db), [request]).0;
         var d := db.packages[1].depends[1];
         After(db, s, 0) == Some(1) && d.name == 2 && !MetBy(db, After(db, s, 2), d) && Missed(db, s, 0, d)
  {
    MissedDbIsBuilt();
    MissedDbIsConsistent();
    MissedDbInstalled();
    hide Consistent, Built, Installed, SingleVersions;
    var db, d, s0 := MissedDb(), Dependency(2, CONFLICT, None), Fresh(MissedDb());
    assert [d][0] == d && [d][1..] == [];
    var s1 := s0.Set(2, Locked(None, true, false));
    assert Prune(db, s0, d) == (s1, 1);
    LockBegins(db, s1, {}, 2, None);
    var s2 := s1.Set(2, Locked(None, false, false));
    assert RepairDependants(db, s2, {}, 2, true, 0) == (s2, 0);
    assert LockName(db, s1, {}, 2, None) == (Record(db, s2, 2, None), 0);
  }
}
