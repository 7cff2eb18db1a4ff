/** Map (query/query.go:326-332, 413-424) and what all atoms of a query have in common. */
module QueryMap {
  import opened Machine
  import opened Query
  import opened Simplify

  /** Map: apply `f` from the leaves up. */
  function Map(q: Q, f: Q -> Q): Q
    decreases q, 1
  {
    match q
    case And(cs) => f(And(MapList(cs, f)))
    case Or(cs) => f(Or(MapList(cs, f)))
    case Not(c) => f(Not(Map(c, f)))
    case _ => f(q)
  }

  function MapList(cs: seq<Q>, f: Q -> Q): (r: seq<Q>)
    ensures |r| == |cs| && forall i :: 0 <= i < |cs| ==> r[i] == Map(cs[i], f)
    decreases cs, 0
  {
    if cs == [] then [] else [Map(cs[0], f)] + MapList(cs[1..], f)
  }

  /** `f` replaces atoms only. */
  ghost predicate OnAtoms(f: Q -> Q) {
    forall q: Q :: !q.IsAtom() ==> f(q) == q
  }

  /** Replacing atoms is interpreting them as what replaces them. */
  lemma {:induction false} MapMeaning(q: Q, f: Q -> Q, env: Q -> bool, env': Q -> bool)
    requires OnAtoms(f)
    requires AllAtoms(q, (a: Q) => Holds(f(a), env) == env'(a))
    ensures Holds(Map(q, f), env) == Holds(q, env')
    decreases q
  {
    match q
    case And(cs) =>
      MapMeaningList(cs, f, env, env');
    case Or(cs) =>
      MapMeaningList(cs, f, env, env');
    case Not(c) => MapMeaning(c, f, env, env');
    case _ =>
  }

  lemma {:induction false} MapMeaningList(cs: seq<Q>, f: Q -> Q, env: Q -> bool, env': Q -> bool)
    requires OnAtoms(f)
    requires EachAtoms(cs, (a: Q) => Holds(f(a), env) == env'(a))
    ensures AllHold(MapList(cs, f), env) == AllHold(cs, env') && AnyHolds(MapList(cs, f), env) == AnyHolds(cs, env')
    decreases cs
  {
    forall i | 0 <= i < |cs| ensures Holds(MapList(cs, f)[i], env) == Holds(cs[i], env') {
      MapMeaning(cs[i], f, env, env');
    }
  }

  // ----- all atoms -----

  ghost predicate AllAtoms(q: Q, p: Q -> bool)
    decreases q, 1
  {
    match q
    case And(cs) => EachAtoms(cs, p)
    case Or(cs) => EachAtoms(cs, p)
    case Not(c) => AllAtoms(c, p)
    case Const(_) => true
    case _ => p(q)
  }

  ghost predicate EachAtoms(cs: seq<Q>, p: Q -> bool)
    decreases cs, 0
  {
    forall i :: 0 <= i < |cs| ==> AllAtoms(cs[i], p)
  }

  lemma {:induction false} AtomsImply(q: Q, p: Q -> bool, p': Q -> bool)
    requires AllAtoms(q, p) && forall a: Q :: a.IsAtom() && p(a) ==> p'(a)
    ensures AllAtoms(q, p')
    decreases q
  {
    match q
    case And(cs) => forall i | 0 <= i < |cs| ensures AllAtoms(cs[i], p') { AtomsImply(cs[i], p, p'); }
    case Or(cs) => forall i | 0 <= i < |cs| ensures AllAtoms(cs[i], p') { AtomsImply(cs[i], p, p'); }
    case Not(c) => AtomsImply(c, p, p');
    case _ =>
  }

  /** Two meanings that agree on the atoms of a query agree on the query. */
  lemma {:induction false} MeaningsAgree(q: Q, env: Q -> bool, env': Q -> bool)
    requires AllAtoms(q, (a: Q) => env(a) == env'(a))
    ensures Holds(q, env) == Holds(q, env')
    decreases q
  {
    match q
    case And(cs) => forall i | 0 <= i < |cs| ensures Holds(cs[i], env) == Holds(cs[i], env') { MeaningsAgree(cs[i], env, env'); }
    case Or(cs) => forall i | 0 <= i < |cs| ensures Holds(cs[i], env) == Holds(cs[i], env') { MeaningsAgree(cs[i], env, env'); }
    case Not(c) => MeaningsAgree(c, env, env');
    case _ =>
  }

  /** The atoms of a mapped query come from mapping atoms. */
  lemma {:induction false} MapAtoms(q: Q, f: Q -> Q, p: Q -> bool)
    requires OnAtoms(f)
    requires AllAtoms(q, (a: Q) => AllAtoms(f(a), p))
    ensures AllAtoms(Map(q, f), p)
    decreases q
  {
    match q
    case And(cs) =>
      assert f(And(MapList(cs, f))) == And(MapList(cs, f));
      forall i | 0 <= i < |cs| ensures AllAtoms(MapList(cs, f)[i], p) { MapAtoms(cs[i], f, p); }
    case Or(cs) =>
      assert f(Or(MapList(cs, f))) == Or(MapList(cs, f));
      forall i | 0 <= i < |cs| ensures AllAtoms(MapList(cs, f)[i], p) { MapAtoms(cs[i], f, p); }
    case Not(c) =>
      MapAtoms(c, f, p);
      assert f(Not(Map(c, f))) == Not(Map(c, f));
    case _ =>
  }

  /** Simplifying adds no atoms. */
  lemma {:induction false} FoldAtoms(q: Q, p: Q -> bool)
    requires AllAtoms(q, p)
    ensures AllAtoms(Fold(q), p)
    decreases q
  {
    match q
    case And(cs) => FoldAtomsList(true, cs, p);
    case Or(cs) => FoldAtomsList(false, cs, p);
    case Not(c) => FoldAtoms(c, p);
    case _ =>
  }

  lemma {:induction false} FoldAtomsList(isAnd: bool, cs: seq<Q>, p: Q -> bool)
    requires EachAtoms(cs, p)
    ensures AllAtoms(Combine(isAnd, FoldList(cs)), p)
    decreases cs
  {
    var fs := FoldList(cs);
    forall i | 0 <= i < |fs| ensures AllAtoms(fs[i], p) { FoldAtoms(cs[i], p); }
    UndecidedExact(fs);
    forall i | 0 <= i < |Undecided(fs)| ensures AllAtoms(Undecided(fs)[i], p) {
      assert Undecided(fs)[i] in Undecided(fs);
      var j :| 0 <= j < |fs| && fs[j] == Undecided(fs)[i];
    }
  }

  lemma {:induction false} FlattenAtoms(q: Q, p: Q -> bool)
    requires AllAtoms(q, p)
    ensures AllAtoms(Flatten(q).0, p)
    decreases q
  {
    match q
    case And(cs) => FlattenAtomsList(true, cs, p);
    case Or(cs) => FlattenAtomsList(false, cs, p);
    case Not(c) => FlattenAtoms(c, p);
    case _ =>
  }

  lemma {:induction false} FlattenAtomsList(isAnd: bool, cs: seq<Q>, p: Q -> bool)
    requires EachAtoms(cs, p)
    ensures EachAtoms(FlattenList(isAnd, cs).0, p)
    decreases cs
  {
    if cs != [] {
      FlattenAtoms(cs[0], p);
      FlattenAtomsList(isAnd, cs[1..], p);
      assert EachAtoms(Splice(isAnd, Flatten(cs[0]).0), p);
    }
  }

  lemma {:induction false} FlattenedAtoms(q: Q, p: Q -> bool)
    requires AllAtoms(q, p)
    ensures AllAtoms(Flattened(q), p)
    decreases Size(q)
  {
    FlattenAtoms(q, p);
    FlattenShrinks(q);
    if Flatten(q).1 {
      FlattenedAtoms(Flatten(q).0, p);
    }
  }

  lemma SimplifiedAtoms(q: Q, p: Q -> bool)
    requires AllAtoms(q, p)
    ensures AllAtoms(Simplified(q), p)
  {
    FoldAtoms(q, p);
    FlattenedAtoms(Fold(q), p);
  }

  /** Simplify keeps the meaning as soon as the vacuous atoms that occur in the query hold. */
  lemma SimplifyMeaningHere(q: Q, env: Q -> bool)
    requires AllAtoms(q, (a: Q) => Vacuous(a) ==> env(a))
    ensures Holds(Simplified(q), env) == Holds(q, env)
  {
    var env' := (a: Q) => env(a) || Vacuous(a);
    SimplifyMeaning(q, env');
    AtomsImply(q, (a: Q) => Vacuous(a) ==> env(a), (a: Q) => env(a) == env'(a));
    MeaningsAgree(q, env, env');
    SimplifiedAtoms(q, (a: Q) => env(a) == env'(a));
    MeaningsAgree(Simplified(q), env, env');
  }
}
