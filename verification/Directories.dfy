/** The reference counts of installed directories: apk_db_dir_get and apk_db_dir_unref of
    apk-tools/src/database.c.  Names have no trailing slash. */
module Directories {

  /** `refs` are the directories in the hash table, also those whose count has fallen to 0; `count` is
      the statistics' number; `removed` are the directories that were tried to be removed. */
  datatype State = State(refs: map<string, int>, count: int, removed: seq<string>)

  const EMPTY := State(map[], 0, [])

  /** Up to the last slash; the root, which has the empty name, if there is none. */
  function Parent(name: string): (p: string)
    requires name != ""
    ensures |p| < |name|
  {
    if name[|name| - 1] == '/' then name[..|name| - 1] else if |name| == 1 then "" else Parent(name[..|name| - 1])
  }

  /** What the last slash cuts off. */
  lemma {:induction false} ParentIs(dir: string, base: string)
    requires '/' !in base
    ensures Parent(dir + "/" + base) == dir && (base != "" ==> Parent(base) == "")
    decreases base
  {
    var name := dir + "/" + base;
    assert base != "" ==> |base| == 1 || base[..|base| - 1] != "";
    if base == "" {
      assert name[..|name| - 1] == dir;
    } else {
      var front := base[..|base| - 1];
      assert base == front + [base[|base| - 1]] && forall c | c in front :: c in base;
      assert base[|base| - 1] in base;
      assert name[..|name| - 1] == dir + "/" + front;
      ParentIs(dir, front);
    }
  }

  // ----- The operations -----

  function Acquire(s: State, name: string): State
    decreases |name|
  {
    if name in s.refs then s.(refs := s.refs[name := s.refs[name] + 1])
    else
      var t := s.(refs := s.refs[name := 1], count := s.count + 1);
      if name == "" then t else Acquire(t, Parent(name))
  }

  function Release(s: State, name: string, rmdir: bool): State
    decreases |name|
  {
    if name !in s.refs then s
    else
      var t := s.(refs := s.refs[name := s.refs[name] - 1]);
      if t.refs[name] > 0 then t
      else
        var u := t.(count := t.count - 1, removed := if rmdir then t.removed + [name] else t.removed);
        if name == "" then u else Release(u, Parent(name), rmdir)
  }

  // ----- What the counts mean -----

  function Refs(s: State, name: string): int { if name in s.refs then s.refs[name] else 0 }

  function Live(s: State): set<string> { set n | n in s.refs && s.refs[n] > 0 }

  function Children(s: State, name: string): set<string> { set n | n in Live(s) && n != "" && Parent(n) == name }

  /** Every count is that of the holders and the live children; `owed` are references still to come. */
  ghost predicate Balanced(s: State, held: multiset<string>, owed: multiset<string>) {
    forall n :: Refs(s, n) + owed[n] == held[n] + |Children(s, n)|
  }

  ghost predicate Counts(s: State, held: multiset<string>) {
    Balanced(s, held, multiset{}) && s.count == |Live(s)|
  }

  /** The first directory on the way up that is in the table, if any, is live. */
  predicate Alive(s: State, name: string)
    decreases |name|
  {
    if name in s.refs then s.refs[name] > 0 else name == "" || Alive(s, Parent(name))
  }

  // ----- One directory -----

  /** A directory becomes live: its parent has one live child more. */
  lemma Rises(s: State, name: string, v: int)
    requires Refs(s, name) <= 0 && v > 0
    ensures
      var t := s.(refs := s.refs[name := v]);
      && Live(t) == Live(s) + {name} && |Live(t)| == |Live(s)| + 1
      && forall n :: |Children(t, n)| == |Children(s, n)| + if name != "" && Parent(name) == n then 1 else 0
  {
    var t := s.(refs := s.refs[name := v]);
    assert Live(t) == Live(s) + {name};
    forall n
      ensures |Children(t, n)| == |Children(s, n)| + if name != "" && Parent(name) == n then 1 else 0
    {
      OneMoreChild(s, t, name, n);
    }
  }

  lemma OneMoreChild(s: State, t: State, name: string, n: string)
    requires Live(t) == Live(s) + {name} && name !in Live(s)
    ensures |Children(t, n)| == |Children(s, n)| + if name != "" && Parent(name) == n then 1 else 0
  {
    hide Live, Parent;
    if name != "" && Parent(name) == n {
      assert Children(t, n) == Children(s, n) + {name};
    } else {
      assert Children(t, n) == Children(s, n);
    }
  }

  lemma Falls(s: State, name: string, v: int)
    requires Refs(s, name) > 0 && v <= 0
    ensures
      var t := s.(refs := s.refs[name := v]);
      && Live(t) == Live(s) - {name} && |Live(t)| == |Live(s)| - 1
      && forall n :: |Children(t, n)| == |Children(s, n)| - if name != "" && Parent(name) == n then 1 else 0
  {
    var t := s.(refs := s.refs[name := v]);
    assert Live(t) == Live(s) - {name} && Live(s) == Live(t) + {name};
    forall n
      ensures |Children(t, n)| == |Children(s, n)| - if name != "" && Parent(name) == n then 1 else 0
    {
      OneMoreChild(t, s, name, n);
    }
  }

  lemma Stays(s: State, name: string, v: int)
    requires Refs(s, name) > 0 && v > 0
    ensures
      var t := s.(refs := s.refs[name := v]);
      Live(t) == Live(s) && forall n :: Children(t, n) == Children(s, n)
  {
  }

  // ----- Acquiring -----

  lemma {:induction false} AliveBelow(s: State, name: string, more: string)
    requires |name| < |more|
    ensures Alive(s.(refs := s.refs[more := 1], count := s.count + 1), name) == Alive(s, name)
    decreases |name|
  {
    if name !in s.refs && name != "" { AliveBelow(s, Parent(name), more); }
  }

  lemma {:induction false} AcquireBalances(s: State, name: string, held: multiset<string>, owed: multiset<string>)
    requires Balanced(s, held, owed) && Alive(s, name)
    ensures Balanced(Acquire(s, name), held + multiset{name}, owed)
    decreases |name|
  {
    hide Children;
    if name in s.refs {
      Stays(s, name, s.refs[name] + 1);
    } else {
      Rises(s, name, 1);
      var t := s.(refs := s.refs[name := 1], count := s.count + 1);
      SameChildren(t, s.(refs := s.refs[name := 1]));
      if name != "" {
        var p := Parent(name);
        AliveBelow(s, p, name);
        AcquireBalances(t, p, held + multiset{name}, owed + multiset{p});
      }
    }
  }

  lemma SameChildren(s: State, t: State)
    requires s.refs == t.refs
    ensures Live(s) == Live(t) && forall n :: Children(s, n) == Children(t, n)
  {
  }

  /** A dead directory that is acquired again is missing from the statistics. */
  lemma {:induction false} AcquireCounts(s: State, name: string)
    requires forall n | n in s.refs :: s.refs[n] >= 0
    ensures
      var t := Acquire(s, name);
      |Live(t)| - t.count == |Live(s)| - s.count + if Alive(s, name) then 0 else 1
    decreases |name|
  {
    if name in s.refs {
      if s.refs[name] > 0 { Stays(s, name, s.refs[name] + 1); } else { Rises(s, name, 1); }
    } else {
      Rises(s, name, 1);
      if name != "" {
        var t := s.(refs := s.refs[name := 1], count := s.count + 1);
        AliveBelow(s, Parent(name), name);
        SameChildren(t, s.(refs := s.refs[name := 1]));
        AcquireCounts(t, Parent(name));
      }
    }
  }

  /** Acquiring keeps the counts right exactly when no dead directory is acquired again on the way. */
  lemma AcquireKeeps(s: State, name: string, held: multiset<string>)
    requires Counts(s, held)
    ensures Counts(Acquire(s, name), held + multiset{name}) <==> Alive(s, name)
  {
    assert forall n | n in s.refs :: Refs(s, n) == s.refs[n] && s.refs[n] >= 0;
    AcquireCounts(s, name);
    if Alive(s, name) { AcquireBalances(s, name, held, multiset{}); }
  }

  // ----- Releasing -----

  /** What is left when a directory's count falls to 0. */
  function Dead(s: State, name: string, rmdir: bool): State {
    s.(refs := s.refs[name := 0], count := s.count - 1, removed := if rmdir then s.removed + [name] else s.removed)
  }

  lemma ReleaseStep(s: State, name: string, rmdir: bool)
    requires name in s.refs && s.refs[name] > 0
    ensures Release(s, name, rmdir) ==
            if s.refs[name] > 1 then s.(refs := s.refs[name := s.refs[name] - 1])
            else if name == "" then Dead(s, name, rmdir) else Release(Dead(s, name, rmdir), Parent(name), rmdir)
  {
  }

  lemma DeadIs(s: State, name: string, held: multiset<string>, rmdir: bool)
    requires Counts(s, held) && name in held && name in s.refs && s.refs[name] == 1
    ensures
      var u := Dead(s, name, rmdir);
      && name in Live(s) && Live(u) == Live(s) - {name}
      && (name != "" ==> Counts(u, held - multiset{name} + multiset{Parent(name)}))
      && (name == "" ==> Counts(u, held - multiset{name}))
  {
    HeldLive(s, name);
    hide Children, Live, Parent;
    var u, t := Dead(s, name, rmdir), s.(refs := s.refs[name := 0]);
    Falls(s, name, 0);
    SameChildren(u, t);
    forall n
      ensures name != "" ==> Refs(u, n) == (held - multiset{name} + multiset{Parent(name)})[n] + |Children(u, n)|
      ensures name == "" ==> Refs(u, n) == (held - multiset{name})[n] + |Children(u, n)|
    {
      DeadAt(s, u, name, held, n);
    }
  }

  lemma DeadAt(s: State, u: State, name: string, held: multiset<string>, n: string)
    requires Counts(s, held) && name in held && name in s.refs && s.refs[name] == 1 && u.refs == s.refs[name := 0]
    requires |Children(u, n)| == |Children(s, n)| - if name != "" && Parent(name) == n then 1 else 0
    ensures name != "" ==> Refs(u, n) == (held - multiset{name} + multiset{Parent(name)})[n] + |Children(u, n)|
    ensures name == "" ==> Refs(u, n) == (held - multiset{name})[n] + |Children(u, n)|
  {
    hide Children, Live, Parent;
    assert Refs(s, n) + multiset{}[n] == held[n] + |Children(s, n)|;
    var p := if name != "" then multiset{Parent(name)} else multiset{};
    OneLess(held, name, p, n);
  }

  lemma OneLess(held: multiset<string>, name: string, more: multiset<string>, n: string)
    requires name in held
    ensures (held - multiset{name} + more)[n] == held[n] - (if n == name then 1 else 0) + more[n]
    ensures (held - multiset{name})[n] == held[n] - (if n == name then 1 else 0)
  {
  }

  lemma HeldLive(s: State, name: string)
    requires name in s.refs && s.refs[name] > 0
    ensures name in Live(s)
  {
  }

  lemma HeldIsLive(s: State, name: string, held: multiset<string>)
    requires Counts(s, held) && name in held
    ensures name in s.refs && s.refs[name] > 0
  {
    assert Refs(s, name) > 0;
  }

  lemma {:induction false} ReleaseKeeps(s: State, name: string, held: multiset<string>, rmdir: bool)
    requires Counts(s, held) && name in held
    ensures Counts(Release(s, name, rmdir), held - multiset{name})
    decreases |name|
  {
    HeldIsLive(s, name, held);
    ReleaseStep(s, name, rmdir);
    if s.refs[name] > 1 {
      Stays(s, name, s.refs[name] - 1);
    } else {
      DeadIs(s, name, held, rmdir);
      if name != "" {
        hide Release, Counts, Dead;
        var p := Parent(name);
        ReleaseKeeps(Dead(s, name, rmdir), p, held - multiset{name} + multiset{p}, rmdir);
        assert held - multiset{name} + multiset{p} - multiset{p} == held - multiset{name};
      }
    }
  }

  /** Live directories have live parents. */
  lemma LiveIsClosed(s: State, held: multiset<string>, name: string)
    requires Counts(s, held) && name in Live(s) && name != ""
    ensures Parent(name) in Live(s)
  {
    assert name in Children(s, Parent(name));
    assert |Children(s, Parent(name))| > 0;
    assert Refs(s, Parent(name)) > 0;
  }

  /** Just the directories that are not live any more are tried to be removed, if at all, and each
      before its parent. */
  lemma {:induction false} ReleaseRemoves(s: State, name: string, held: multiset<string>)
    requires Counts(s, held) && name in held
    ensures Release(s, name, false).removed == s.removed
    ensures
      var t := Release(s, name, true);
      && Live(t) <= Live(s) && s.removed <= t.removed
      && Climbs(t.removed[|s.removed|..], name, Live(s) - Live(t))
    decreases |name|
  {
    hide Live, Counts, Parent, Climbs;
    HeldIsLive(s, name, held);
    ReleaseStep(s, name, true);
    ReleaseStep(s, name, false);
    hide Release;
    if s.refs[name] > 1 {
      Stays(s, name, s.refs[name] - 1);
      SameChildren(s.(refs := s.refs[name := s.refs[name] - 1]), Release(s, name, true));
      NothingRemoved(s, Release(s, name, true), name);
    } else {
      DeadIs(s, name, held, true);
      DeadIs(s, name, held, false);
      if name != "" {
        var p, u, n := Parent(name), Dead(s, name, true), Dead(s, name, false);
        var held' := held - multiset{name} + multiset{p};
        OneLess(held, name, multiset{p}, p);
        ReleaseRemoves(u, p, held');
        ReleaseRemoves(n, p, held');
        OneMoreRemoved(s, name, Release(u, p, true));
      } else {
        LastRemoved(s, Dead(s, name, true));
      }
    }
  }

  lemma NothingRemoved(s: State, t: State, name: string)
    requires Live(t) == Live(s) && t.removed == s.removed
    ensures Climbs(t.removed[|s.removed|..], name, Live(s) - Live(t))
  {
    assert Live(s) - Live(t) == {} && t.removed[|s.removed|..] == [];
  }

  lemma LastRemoved(s: State, t: State)
    requires "" in Live(s) && Live(t) == Live(s) - {""} && t.removed == s.removed + [""]
    ensures Climbs(t.removed[|s.removed|..], "", Live(s) - Live(t))
  {
    assert t.removed[|s.removed|..] == [""];
    assert Live(s) - Live(t) == {""};
  }

  lemma OneMoreRemoved(s: State, name: string, t: State)
    requires name in Live(s) && name != "" && s.removed + [name] <= t.removed && Live(t) <= Live(s) - {name}
    requires Climbs(t.removed[|s.removed| + 1..], Parent(name), Live(s) - {name} - Live(t))
    ensures s.removed <= t.removed && Climbs(t.removed[|s.removed|..], name, Live(s) - Live(t))
  {
    var more := t.removed[|s.removed|..];
    assert more == [name] + t.removed[|s.removed| + 1..];
    assert more[1..] == t.removed[|s.removed| + 1..];
    assert Live(s) - {name} - Live(t) == Live(s) - Live(t) - {name};
  }

  /** A list of directories from `name` upwards, which are those of the set. */
  predicate Climbs(removed: seq<string>, name: string, all: set<string>)
    decreases |name|
  {
    if removed == [] then all == {}
    else
      && removed[0] == name && name in all
      && if name == "" then |removed| == 1 && all == {name} else Climbs(removed[1..], Parent(name), all - {name})
  }

  // ----- Runs -----

  datatype Op = Get(name: string) | Put(name: string, rmdir: bool)

  function After(ops: seq<Op>): State {
    if ops == [] then EMPTY
    else
      var s := After(ops[..|ops| - 1]);
      match ops[|ops| - 1]
      case Get(name) => Acquire(s, name)
      case Put(name, rmdir) => Release(s, name, rmdir)
  }

  /** The directories that the run holds: one reference for each instance. */
  function Held(ops: seq<Op>): multiset<string> {
    if ops == [] then multiset{}
    else
      match ops[|ops| - 1]
      case Get(name) => Held(ops[..|ops| - 1]) + multiset{name}
      case Put(name, _) => Held(ops[..|ops| - 1]) - multiset{name}
  }

  /** Only what is held is released, and no directory whose count fell to 0 is acquired again. */
  predicate Proper(ops: seq<Op>) {
    ops == [] || (
      && Proper(ops[..|ops| - 1])
      && match ops[|ops| - 1]
         case Get(name) => Alive(After(ops[..|ops| - 1]), name)
         case Put(name, _) => name in Held(ops[..|ops| - 1]))
  }

  /** In every such run each count is that of the instances and the live children, the live directories
      are closed under parent, and the statistics give their number. */
  lemma {:induction false} RunsCount(ops: seq<Op>)
    requires Proper(ops)
    ensures Counts(After(ops), Held(ops))
  {
    if ops == [] {
      assert Live(EMPTY) == {} && forall n :: Children(EMPTY, n) == {};
    } else {
      var before := ops[..|ops| - 1];
      RunsCount(before);
      match ops[|ops| - 1] {
        case Get(name) => AcquireKeeps(After(before), name, Held(before));
        case Put(name, rmdir) => ReleaseKeeps(After(before), name, Held(before), rmdir);
      }
    }
  }

  /** A directory that is put back and acquired again: it is live, but the statistics miss it. */
  lemma ReacquiredIsNotCounted()
    ensures
      var before := [Get("a"), Put("a", false)];
      var ops := before + [Get("a")];
      && Proper(before) && !Proper(ops)
      && Live(After(ops)) == {"a"} && After(ops).count == 0 && !Counts(After(ops), Held(ops))
  {
    var one, two := [Get("a")], [Get("a"), Put("a", false)];
    var three := two + [Get("a")];
    assert one[..0] == [] && two[..1] == one && three[..2] == two;
    assert Parent("a") == "";
    var s1 := State(map["a" := 1, "" := 1], 2, []);
    var s2 := State(map["a" := 0, "" := 0], 0, []);
    var s3 := State(map["a" := 1, "" := 0], 0, []);
    assert Acquire(EMPTY, "a") == s1;
    assert After(one) == s1;
    assert Release(s1, "a", false) == s2;
    assert After(two) == s2;
    assert After(three) == s3;
    assert Live(s3) == {"a"};
  }
}
