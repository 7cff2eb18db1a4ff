/** Simplify keeps the meaning of a query and brings it into normal form (query/query.go:283-411). */
module Simplify {
  import opened Machine
  import opened Query

  // ----- constants keep the meaning -----

  lemma CombineMeaning(isAnd: bool, cs: seq<Q>, env: Q -> bool)
    ensures Holds(Combine(isAnd, cs), env) == if isAnd then AllHold(cs, env) else AnyHolds(cs, env)
  {
    UndecidedExact(cs);
    var open := Undecided(cs);
    if Const(!isAnd) in cs {
      var i :| 0 <= i < |cs| && cs[i] == Const(!isAnd);
      assert Holds(cs[i], env) == !isAnd;
    } else {
      forall i | 0 <= i < |cs| ensures cs[i].Const? ==> Holds(cs[i], env) == isAnd {
        assert cs[i] in cs;
      }
      UndecidedMeaning(isAnd, cs, open, env);
    }
  }

  lemma UndecidedMeaning(isAnd: bool, cs: seq<Q>, open: seq<Q>, env: Q -> bool)
    requires forall c :: c in open <==> c in cs && !c.Const?
    requires forall i :: 0 <= i < |cs| && cs[i].Const? ==> Holds(cs[i], env) == isAnd
    ensures isAnd ==> AllHold(open, env) == AllHold(cs, env)
    ensures !isAnd ==> AnyHolds(open, env) == AnyHolds(cs, env)
  {
    hide Holds;
    forall i | 0 <= i < |open| ensures exists j :: 0 <= j < |cs| && cs[j] == open[i] {
      assert open[i] in open;
    }
    forall i | 0 <= i < |cs| && !cs[i].Const? ensures exists j :: 0 <= j < |open| && open[j] == cs[i] {
      assert cs[i] in cs && cs[i] in open;
    }
  }

  /** Folding constants keeps the meaning wherever vacuous atoms hold. */
  lemma {:induction false} FoldMeaning(q: Q, env: Q -> bool)
    requires VacuousHold(env)
    ensures Holds(Fold(q), env) == Holds(q, env)
    decreases q
  {
    match q
    case And(cs) =>
      FoldMeaningList(cs, env);
      CombineMeaning(true, FoldList(cs), env);
    case Or(cs) =>
      FoldMeaningList(cs, env);
      CombineMeaning(false, FoldList(cs), env);
    case Not(c) => FoldMeaning(c, env);
    case _ =>
  }

  lemma {:induction false} FoldMeaningList(cs: seq<Q>, env: Q -> bool)
    requires VacuousHold(env)
    ensures AllHold(FoldList(cs), env) == AllHold(cs, env) && AnyHolds(FoldList(cs), env) == AnyHolds(cs, env)
    decreases cs
  {
    forall i | 0 <= i < |cs| ensures Holds(FoldList(cs)[i], env) == Holds(cs[i], env) {
      FoldMeaning(cs[i], env);
    }
  }

  // ----- flattening -----

  /** A child of the same kind gives its children, any other gives itself. */
  function Splice(isAnd: bool, c: Q): seq<Q> {
    if isAnd && c.And? then c.children
    else if !isAnd && c.Or? then c.children
    else [c]
  }

  predicate SameKind(isAnd: bool, c: Q) {
    if isAnd then c.And? else c.Or?
  }

  /** flatten: the new query, and whether anything changed. */
  function Flatten(q: Q): (Q, bool)
    decreases q, 1
  {
    match q
    case And(cs) =>
      if |cs| == 1 then (cs[0], true) else (And(FlattenList(true, cs).0), FlattenList(true, cs).1)
    case Or(cs) =>
      if |cs| == 1 then (cs[0], true) else (Or(FlattenList(false, cs).0), FlattenList(false, cs).1)
    case Not(c) => (Not(Flatten(c).0), Flatten(c).1)
    case _ => (q, false)
  }

  /** flattenAndOr. */
  function FlattenList(isAnd: bool, cs: seq<Q>): (seq<Q>, bool)
    decreases cs, 0
  {
    if cs == [] then ([], false)
    else
      var (c, changed) := Flatten(cs[0]);
      var (rest, changedRest) := FlattenList(isAnd, cs[1..]);
      (Splice(isAnd, c) + rest, changed || SameKind(isAnd, c) || changedRest)
  }

  lemma {:induction false} SizeOfAppend(a: seq<Q>, b: seq<Q>)
    ensures SizeOf(a + b) == SizeOf(a) + SizeOf(b)
  {
    if a == [] {
      assert a + b == b;
    } else {
      assert (a + b)[1..] == a[1..] + b;
      SizeOfAppend(a[1..], b);
    }
  }

  /** A change makes the query smaller; no change leaves it as it is. */
  lemma {:induction false} FlattenShrinks(q: Q)
    ensures if Flatten(q).1 then Size(Flatten(q).0) < Size(q) else Flatten(q).0 == q
    decreases q
  {
    match q
    case And(cs) => FlattenListShrinks(true, cs);
    case Or(cs) => FlattenListShrinks(false, cs);
    case Not(c) => FlattenShrinks(c);
    case _ =>
  }

  lemma {:induction false} FlattenListShrinks(isAnd: bool, cs: seq<Q>)
    ensures if FlattenList(isAnd, cs).1 then SizeOf(FlattenList(isAnd, cs).0) < SizeOf(cs)
            else FlattenList(isAnd, cs).0 == cs
    ensures |cs| == 1 ==> SizeOf(cs) == Size(cs[0])
    decreases cs
  {
    if cs != [] {
      FlattenShrinks(cs[0]);
      FlattenListShrinks(isAnd, cs[1..]);
      var c := Flatten(cs[0]).0;
      SizeOfAppend(Splice(isAnd, c), FlattenList(isAnd, cs[1..]).0);
      SpliceSize(isAnd, c);
      assert cs == [cs[0]] + cs[1..];
    }
  }

  lemma SpliceSize(isAnd: bool, c: Q)
    ensures SizeOf(Splice(isAnd, c)) == if SameKind(isAnd, c) then Size(c) - 1 else Size(c)
  {
    assert SizeOf([c]) == Size(c) + SizeOf([c][1..]);
  }

  lemma {:induction false} FlattenMeaning(q: Q, env: Q -> bool)
    ensures Holds(Flatten(q).0, env) == Holds(q, env)
    decreases q
  {
    match q
    case And(cs) => FlattenListMeaning(true, cs, env);
    case Or(cs) => FlattenListMeaning(false, cs, env);
    case Not(c) => FlattenMeaning(c, env);
    case _ =>
  }

  lemma {:induction false} FlattenListMeaning(isAnd: bool, cs: seq<Q>, env: Q -> bool)
    ensures isAnd ==> AllHold(FlattenList(isAnd, cs).0, env) == AllHold(cs, env)
    ensures !isAnd ==> AnyHolds(FlattenList(isAnd, cs).0, env) == AnyHolds(cs, env)
    ensures |cs| == 1 ==> AllHold(cs, env) == Holds(cs[0], env) && AnyHolds(cs, env) == Holds(cs[0], env)
    decreases cs
  {
    if cs != [] {
      var c, rest := Flatten(cs[0]).0, FlattenList(isAnd, cs[1..]).0;
      FlattenMeaning(cs[0], env);
      FlattenListMeaning(isAnd, cs[1..], env);
      HoldAppend([cs[0]], cs[1..], env);
      HoldAppend(Splice(isAnd, c), rest, env);
      HoldOne(cs[0], env);
      HoldOne(c, env);
      assert cs == [cs[0]] + cs[1..];
    }
  }

  lemma HoldOne(c: Q, env: Q -> bool)
    ensures AllHold([c], env) == Holds(c, env) && AnyHolds([c], env) == Holds(c, env)
  {
    assert [c][0] == c;
  }

  lemma HoldAppend(a: seq<Q>, b: seq<Q>, env: Q -> bool)
    ensures AllHold(a + b, env) == (AllHold(a, env) && AllHold(b, env))
    ensures AnyHolds(a + b, env) == (AnyHolds(a, env) || AnyHolds(b, env))
  {
    hide Holds;
    var c := a + b;
    assert forall i :: 0 <= i < |a| ==> c[i] == a[i];
    forall i | 0 <= i < |b| ensures c[|a| + i] == b[i] {}
    if AllHold(c, env) {
      forall i | 0 <= i < |b| ensures Holds(b[i], env) { assert c[|a| + i] == b[i]; }
    }
    if AnyHolds(b, env) {
      var i :| 0 <= i < |b| && Holds(b[i], env);
      assert c[|a| + i] == b[i];
    }
    if AnyHolds(a, env) {
      var i :| 0 <= i < |a| && Holds(a[i], env);
      assert c[i] == a[i];
    }
  }

  // ----- normal form -----

  /** No constants or vacuous atoms, at least two children everywhere, no and in an and, no or in an or. */
  ghost predicate Normal(q: Q)
    decreases q, 1
  {
    match q
    case And(cs) => |cs| >= 2 && AllNormal(cs) && forall i :: 0 <= i < |cs| ==> !cs[i].And?
    case Or(cs) => |cs| >= 2 && AllNormal(cs) && forall i :: 0 <= i < |cs| ==> !cs[i].Or?
    case Not(c) => Normal(c)
    case Const(_) => false
    case _ => !Vacuous(q)
  }

  ghost predicate AllNormal(cs: seq<Q>)
    decreases cs, 0
  {
    forall i :: 0 <= i < |cs| ==> Normal(cs[i])
  }

  lemma {:induction false} FlattenClean(q: Q)
    requires Clean(q)
    ensures Clean(Flatten(q).0)
    decreases q
  {
    match q
    case And(cs) => FlattenListClean(true, cs);
    case Or(cs) => FlattenListClean(false, cs);
    case Not(c) => FlattenClean(c);
    case _ =>
  }

  lemma {:induction false} FlattenListClean(isAnd: bool, cs: seq<Q>)
    requires AllClean(cs)
    ensures AllClean(FlattenList(isAnd, cs).0)
    ensures cs != [] ==> FlattenList(isAnd, cs).0 != []
    decreases cs
  {
    if cs != [] {
      FlattenClean(cs[0]);
      FlattenListClean(isAnd, cs[1..]);
      assert AllClean(Splice(isAnd, Flatten(cs[0]).0));
    }
  }

  /** A clean query that flatten leaves alone is in normal form, and the other way round. */
  lemma {:induction false} FlatIsNormal(q: Q)
    requires Clean(q) && !Flatten(q).1
    ensures Normal(q)
    decreases q
  {
    match q
    case And(cs) => FlatListIsNormal(true, cs);
    case Or(cs) => FlatListIsNormal(false, cs);
    case Not(c) => FlatIsNormal(c);
    case _ =>
  }

  lemma {:induction false} FlatListIsNormal(isAnd: bool, cs: seq<Q>)
    requires AllClean(cs) && !FlattenList(isAnd, cs).1
    ensures AllNormal(cs) && forall i :: 0 <= i < |cs| ==> !SameKind(isAnd, cs[i])
    decreases cs
  {
    if cs != [] {
      FlatIsNormal(cs[0]);
      FlattenShrinks(cs[0]);
      FlatListIsNormal(isAnd, cs[1..]);
      assert cs == [cs[0]] + cs[1..];
    }
  }

  lemma {:induction false} NormalIsFlat(q: Q)
    requires Normal(q)
    ensures !Flatten(q).1 && Clean(q)
    decreases q
  {
    match q
    case And(cs) => NormalListIsFlat(true, cs);
    case Or(cs) => NormalListIsFlat(false, cs);
    case Not(c) => NormalIsFlat(c);
    case _ =>
  }

  lemma {:induction false} NormalListIsFlat(isAnd: bool, cs: seq<Q>)
    requires AllNormal(cs) && forall i :: 0 <= i < |cs| ==> !SameKind(isAnd, cs[i])
    ensures !FlattenList(isAnd, cs).1 && AllClean(cs)
    decreases cs
  {
    if cs != [] {
      NormalIsFlat(cs[0]);
      FlattenShrinks(cs[0]);
      NormalListIsFlat(isAnd, cs[1..]);
      assert cs == [cs[0]] + cs[1..];
    }
  }

  // ----- Simplify -----

  /** Flatten until nothing changes. */
  function Flattened(q: Q): Q
    decreases Size(q)
  {
    FlattenShrinks(q);
    if Flatten(q).1 then Flattened(Flatten(q).0) else Flatten(q).0
  }

  function Simplified(q: Q): Q {
    Flattened(Fold(q))
  }

  /** Simplify, with its loop. */
  method SimplifyQuery(q: Q) returns (r: Q)
    ensures r == Simplified(q)
  {
    EvalIsFold(q);
    r := EvalConstants(q);
    var changed := true;
    while changed
      invariant Flattened(r) == Simplified(q)
      invariant !changed ==> r == Flattened(r)
      decreases Size(r), changed
    {
      FlattenShrinks(r);
      r, changed := Flatten(r).0, Flatten(r).1;
    }
  }

  lemma {:induction false} FlattenedMeaning(q: Q, env: Q -> bool)
    ensures Holds(Flattened(q), env) == Holds(q, env)
    decreases Size(q)
  {
    FlattenMeaning(q, env);
    FlattenShrinks(q);
    if Flatten(q).1 {
      FlattenedMeaning(Flatten(q).0, env);
    }
  }

  lemma {:induction false} FlattenedNormal(q: Q)
    requires Clean(q)
    ensures Normal(Flattened(q))
    decreases Size(q)
  {
    FlattenShrinks(q);
    if Flatten(q).1 {
      FlattenClean(q);
      FlattenedNormal(Flatten(q).0);
    } else {
      FlatIsNormal(q);
    }
  }

  /** Simplify keeps the meaning of every query. */
  lemma SimplifyMeaning(q: Q, env: Q -> bool)
    requires VacuousHold(env)
    ensures Holds(Simplified(q), env) == Holds(q, env)
  {
    FoldMeaning(q, env);
    FlattenedMeaning(Fold(q), env);
  }

  /** Its result is a constant or in normal form. */
  lemma SimplifyNormal(q: Q)
    ensures Simplified(q).Const? || Normal(Simplified(q))
  {
    FoldClean(q);
    if Fold(q).Const? {
      assert Flatten(Fold(q)) == (Fold(q), false);
    } else {
      FlattenedNormal(Fold(q));
    }
  }

  /** Hence simplifying twice is simplifying once. */
  lemma SimplifyIdempotent(q: Q)
    ensures Simplified(Simplified(q)) == Simplified(q)
  {
    var r := Simplified(q);
    SimplifyNormal(q);
    if !r.Const? {
      NormalIsFlat(r);
      CleanFixed(r);
      FlattenShrinks(r);
    }
  }

  /** A query in normal form is left as it is. */
  lemma NormalFixed(q: Q)
    requires Normal(q)
    ensures Simplified(q) == q
  {
    NormalIsFlat(q);
    CleanFixed(q);
    FlattenShrinks(q);
  }

  /** The atoms that ask for nothing become true, and every other atom is left as it is (query.go:376-397). */
  lemma AtomSimplified(a: Q)
    requires a.IsAtom()
    ensures a.Substring? ==> Simplified(a) == if |a.sub.pattern| == 0 then Const(true) else a
    ensures a.Regex? ==> Simplified(a) == if a.re == EmptyMatch then Const(true) else a
    ensures a.Branch? ==> Simplified(a) == if a.pattern == "" then Const(true) else a
    ensures a.RepoSet? ==> Simplified(a) == if |a.repos| == 0 then Const(true) else a
    ensures !a.Substring? && !a.Regex? && !a.Branch? && !a.RepoSet? ==> Simplified(a) == a
  {
    assert Flatten(a) == (a, false) && Flatten(Const(true)) == (Const(true), false);
  }

  /** The atoms of a query, from left to right. */
  function AtomsOf(q: Q): seq<Q>
    decreases q, 1
  {
    match q
    case And(cs) => AtomsOfAll(cs)
    case Or(cs) => AtomsOfAll(cs)
    case Not(c) => AtomsOf(c)
    case Const(_) => []
    case _ => [q]
  }

  function AtomsOfAll(cs: seq<Q>): seq<Q>
    decreases cs, 0
  {
    if cs == [] then [] else AtomsOf(cs[0]) + AtomsOfAll(cs[1..])
  }

  lemma {:induction false} AtomsOfJoin(a: seq<Q>, b: seq<Q>)
    ensures AtomsOfAll(a + b) == AtomsOfAll(a) + AtomsOfAll(b)
  {
    if a == [] {
      assert a + b == b;
    } else {
      assert (a + b)[1..] == a[1..] + b;
      AtomsOfJoin(a[1..], b);
    }
  }

  /** Flattening keeps the atoms, each as often and in the same order. */
  lemma {:induction false} FlattenKeepsAtoms(q: Q)
    ensures AtomsOf(Flatten(q).0) == AtomsOf(q)
    decreases q
  {
    match q
    case And(cs) => FlattenListKeepsAtoms(true, cs);
    case Or(cs) => FlattenListKeepsAtoms(false, cs);
    case Not(c) => FlattenKeepsAtoms(c);
    case _ =>
  }

  lemma {:induction false} FlattenListKeepsAtoms(isAnd: bool, cs: seq<Q>)
    ensures AtomsOfAll(FlattenList(isAnd, cs).0) == AtomsOfAll(cs)
    decreases cs
  {
    if cs != [] {
      FlattenKeepsAtoms(cs[0]);
      FlattenListKeepsAtoms(isAnd, cs[1..]);
      var first := Flatten(cs[0]).0;
      SpliceKeepsAtoms(isAnd, first);
      AtomsOfJoin(Splice(isAnd, first), FlattenList(isAnd, cs[1..]).0);
    }
  }

  lemma SpliceKeepsAtoms(isAnd: bool, q: Q)
    ensures AtomsOfAll(Splice(isAnd, q)) == AtomsOf(q)
  {
    assert [q][1..] == [];
  }
}
