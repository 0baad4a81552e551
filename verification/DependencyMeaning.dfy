/** What the text of a dependency means for the solver: which versions of a package it accepts. */
module DependencyMeaning {
  import opened Wrappers
  import opened Version
  import opened Dependencies
  import opened Solver

  /** The dependency that the solver gets for a text about the name with the number `n`. */
  function Meant(blob: string, n: NameId): Option<Dependency>
    requires blob != ""
  {
    match DepFromBlob(blob) case None => None case Some(d) => Some(Dependency(n, d.mask, d.version))
  }

  /** A comparison accepts exactly the versions that compare so, whatever the operator is spelled like. */
  lemma ComparisonMeans(db: Db, p: PkgId, n: NameId, name: string, op: string, v: string, w: string)
    requires p < |db.packages| && db.packages[p].version == Some(w)
    requires op in ["<", "<=", "=", "=<", ">=", "=>", ">"] && v != "" && IsValid(v)
    requires (forall c | c in name :: c !in "<=>") && (name != "" ==> name[0] != '!')
    ensures
      var d := Meant(name + op + v, n);
      && d.Some? && d.value.name == n && d.value.version == Some(v)
      && (Sat(db, p, d.value) <==>
            if CompareVersions(w, v) == LESS then '<' in op
            else if CompareVersions(w, v) == GREATER then '>' in op
            else '=' in op)
  {
    OperatorBits(op);
    ValidStarts(v);
    hide IsValid, OpMask, CompareVersions, DepFromBlob;
    ReadsComparison(name, op, v);
    assert CompareVersions(w, v) in {EQUAL, LESS, GREATER};
  }

  lemma OperatorBits(op: string)
    requires op in ["<", "<=", "=", "=<", ">=", "=>", ">"]
    ensures op != "" && forall i | 0 <= i < |op| :: IsOp(op[i])
    ensures OpMask(op) != BOTH_WAYS && OpMask(op) != REQUIRE
    ensures Accepts(OpMask(op), LESS) <==> '<' in op
    ensures Accepts(OpMask(op), GREATER) <==> '>' in op
    ensures Accepts(OpMask(op), EQUAL) <==> '=' in op
  {
  }

  /** A bare name accepts every version, and an exclamation mark none. */
  lemma NamesMean(db: Db, p: PkgId, n: NameId, name: string)
    requires p < |db.packages| && name != "" && (forall c | c in name :: c !in "<=>") && name[0] != '!'
    ensures Meant(name, n).Some? && Sat(db, p, Meant(name, n).value)
    ensures Meant("!" + name, n).Some? && !Sat(db, p, Meant("!" + name, n).value)
    ensures MetBy(db, None, Meant("!" + name, n).value) && !MetBy(db, None, Meant(name, n).value)
  {
    assert ("!" + name)[1..] == name && name + "" == name;
    OpFreeOf(name, "");
    hide CompareVersions;
  }
}
