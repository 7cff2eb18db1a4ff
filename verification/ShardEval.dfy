/** Partial evaluation of a query on a shard, and listing (eval.go:42-58, 391-418). */
module ShardEval {
  import opened Machine
  import opened Utf8
  import opened Query
  import opened Simplify
  import opened QueryMap
  import opened ShardIndex
  import opened ContentMatch
  import RQ = RegexpQuery

  /** What indexData.simplify makes of an atom, for a repository and the languages of its shard. */
  function EvalOnRepo(repoName: string, languages: map<string, nat>, q: Q): Q {
    match q
    case Repo(p) => Const(IsSubstring(p, repoName))
    case RepoSet(repos) => Const(repoName in repos && repos[repoName])
    case Language(l) => if l in languages then q else Const(false)
    case _ => q
  }

  function OnRepo(repoName: string, languages: map<string, nat>): Q -> Q {
    (a: Q) => EvalOnRepo(repoName, languages, a)
  }

  function SimplifyFor(repoName: string, languages: map<string, nat>, q: Q): Q {
    Simplified(Map(q, OnRepo(repoName, languages)))
  }

  /** indexData.simplify. */
  function ShardSimplify(sh: Shard, q: Q): Q {
    SimplifyFor(sh.repoName, sh.languageMap, q)
  }

  /** Atoms that ask for nothing do hold on every document; repository sets are gone by then. */
  lemma VacuousAtomsHold(sh: Shard, src: Source, d: nat, other: RQ.OtherOps, a: Q)
    requires Evaluable(sh, src, other) && d < |src.contents| && Vacuous(a) && !a.RepoSet?
    ensures AtomHolds(sh, src, d, a)
  {
    hide Tokens;
    match a
    case Substring(s) =>
      EmptyNeedle(sh, s, src.names[d]);
      EmptyNeedle(sh, s, src.contents[d]);
    case Regex(re, cs, fileName, content) =>
      EmptyMatches(sh, cs, src.names[d], other);
      EmptyMatches(sh, cs, src.contents[d], other);
    case Branch(p) =>
  }

  lemma EmptyNeedle(sh: Shard, s: SubstringQ, text: seq<byte>)
    requires s.pattern == []
    ensures NeedleOf(sh, s).FoundIn(text)
  {
    assert Tokens([]) == [];
    assert Offset(text, 0) == 0 && text[0..0] == [];
    assert NeedleOf(sh, s).MatchAt(text, 0);
  }

  lemma EmptyMatches(sh: Shard, cs: bool, text: seq<byte>, other: RQ.OtherOps)
    requires EngineOk(sh, other)
    ensures sh.find(EmptyMatch, cs, text) != []
  {
    assert RQ.Matches(EngineFor(sh, cs, other), EmptyMatch, Runes(text), 0, 0);
    assert sh.find(EmptyMatch, cs, text) != [] <==>
           RQ.MatchesSomewhere(EngineFor(sh, cs, other), EmptyMatch, Runes(text));
  }

  /** What can be decided without looking at documents: repositories, and languages that the shard does not have. */
  ghost function Open(languages: map<string, nat>): Q -> bool {
    (a: Q) => !a.Repo? && !a.RepoSet? && (a.Language? ==> a.language in languages)
  }

  /** All that can be is decided. */
  lemma NoRepoLeft(repoName: string, languages: map<string, nat>, q: Q)
    ensures AllAtoms(Map(q, OnRepo(repoName, languages)), Open(languages))
    ensures AllAtoms(SimplifyFor(repoName, languages, q), Open(languages))
  {
    hide Simplified;
    var f := OnRepo(repoName, languages);
    var p := Open(languages);
    var mapped := (a: Q) => AllAtoms(f(a), p);
    forall a: Q | a.IsAtom() ensures mapped(a) {
      assert AllAtoms(f(a), p);
    }
    AnyAtoms(q, mapped);
    MapAtoms(q, f, p);
    SimplifiedAtoms(Map(q, f), p);
  }

  lemma OnRepoMeaning(sh: Shard, src: Source, d: nat, q: Q)
    requires d < |src.contents| && d < |src.names|
    ensures Holds(Map(q, OnRepo(sh.repoName, sh.languageMap)), On(sh, src, d)) == Holds(q, On(sh, src, d))
  {
    hide AtomHolds;
    var f, env := OnRepo(sh.repoName, sh.languageMap), On(sh, src, d);
    var means := (a: Q) => Holds(f(a), env) == env(a);
    forall a: Q | a.IsAtom() ensures means(a) {
      EvalOnRepoMeaning(sh, src, d, a);
    }
    AnyAtoms(q, means);
    MapMeaning(q, f, env, env);
  }

  /** Partial evaluation keeps the meaning of the query on every document of the shard. */
  lemma ShardSimplifyMeaning(sh: Shard, src: Source, d: nat, other: RQ.OtherOps, q: Q)
    requires Evaluable(sh, src, other) && d < |src.contents|
    ensures Holds(ShardSimplify(sh, q), On(sh, src, d)) == Holds(q, On(sh, src, d))
  {
    hide EngineOk, OnRepo, Simplified, AtomHolds, Holds;
    var mapped, env := Map(q, OnRepo(sh.repoName, sh.languageMap)), On(sh, src, d);
    OnRepoMeaning(sh, src, d, q);
    NoRepoLeft(sh.repoName, sh.languageMap, q);
    forall a: Q | a.IsAtom() && Open(sh.languageMap)(a) ensures Vacuous(a) ==> env(a) {
      if Vacuous(a) {
        VacuousAtomsHold(sh, src, d, other, a);
      }
    }
    AtomsImply(mapped, Open(sh.languageMap), (a: Q) => Vacuous(a) ==> env(a));
    SimplifyMeaningHere(mapped, env);
  }

  lemma EvalOnRepoMeaning(sh: Shard, src: Source, d: nat, a: Q)
    requires a.IsAtom() && d < |src.contents| && d < |src.names|
    ensures Holds(EvalOnRepo(sh.repoName, sh.languageMap, a), On(sh, src, d)) == AtomHolds(sh, src, d, a)
  {
    hide IsSubstring, InBranch;
  }

  lemma {:induction false} AnyAtoms(q: Q, p: Q -> bool)
    requires forall a: Q :: a.IsAtom() ==> p(a)
    ensures AllAtoms(q, p)
    decreases q
  {
    match q
    case And(cs) => forall i | 0 <= i < |cs| ensures AllAtoms(cs[i], p) { AnyAtoms(cs[i], p); }
    case Or(cs) => forall i | 0 <= i < |cs| ensures AllAtoms(cs[i], p) { AnyAtoms(cs[i], p); }
    case Not(c) => AnyAtoms(c, p);
    case _ =>
  }

  // ----- listing -----

  /** A query without atoms folds to a constant. */
  lemma {:induction false} NoAtomsFold(q: Q)
    requires AllAtoms(q, (a: Q) => false)
    ensures Fold(q).Const?
    decreases q
  {
    match q
    case And(cs) => NoAtomsFoldList(true, cs);
    case Or(cs) => NoAtomsFoldList(false, cs);
    case Not(c) => NoAtomsFold(c);
    case _ =>
  }

  lemma {:induction false} NoAtomsFoldList(isAnd: bool, cs: seq<Q>)
    requires EachAtoms(cs, (a: Q) => false)
    ensures Combine(isAnd, FoldList(cs)).Const?
    decreases cs
  {
    var fs := FoldList(cs);
    forall i | 0 <= i < |fs| ensures fs[i].Const? { NoAtomsFold(cs[i]); }
    UndecidedExact(fs);
    assert forall i :: 0 <= i < |Undecided(fs)| ==> Undecided(fs)[i] in Undecided(fs);
  }

  /** A query about repositories only collapses to a constant. */
  lemma RepoOnlyCollapses(sh: Shard, q: Q)
    requires AllAtoms(q, (a: Q) => a.Repo? || a.RepoSet?)
    ensures ShardSimplify(sh, q).Const?
  {
    var f := OnRepo(sh.repoName, sh.languageMap);
    var none := (b: Q) => false;
    var mapped := (a: Q) => AllAtoms(f(a), none);
    forall a: Q | a.Repo? || a.RepoSet? ensures mapped(a) {
      assert AllAtoms(f(a), none);
    }
    AtomsImply(q, (a: Q) => a.Repo? || a.RepoSet?, mapped);
    MapAtoms(q, f, none);
    NoAtomsFold(Map(q, f));
    assert Flatten(Fold(Map(q, f))) == (Fold(Map(q, f)), false);
  }

  /** List: whether the repository of the shard is listed. */
  method List(sh: Shard, q: Q, ghost src: Source, ghost other: RQ.OtherOps)
    returns (r: Result<bool>)
    requires Evaluable(sh, src, other)
    ensures AllAtoms(q, (a: Q) => a.Repo? || a.RepoSet?) ==> r.Ok?
    ensures r.Ok? ==> forall d :: 0 <= d < |src.contents| ==> r.value == Holds(q, On(sh, src, d))
  {
    hide EngineOk, ShardSimplify;
    var s := SimplifyOnShard(sh, q);
    if AllAtoms(q, (a: Q) => a.Repo? || a.RepoSet?) {
      RepoOnlyCollapses(sh, q);
    }
    if !s.Const? {
      return Err("List should receive Repo-only query.");
    }
    forall d | 0 <= d < |src.contents| ensures s.value == Holds(q, On(sh, src, d)) {
      ShardSimplifyMeaning(sh, src, d, other, q);
    }
    return Ok(s.value);
  }

  method SimplifyOnShard(sh: Shard, q: Q) returns (s: Q)
    ensures s == ShardSimplify(sh, q)
  {
    s := SimplifyQuery(Map(q, OnRepo(sh.repoName, sh.languageMap)));
  }

  /** The empty repository set: Simplify alone takes it to hold, the shard takes it not to. */
  lemma EmptyRepoSetDisagrees(sh: Shard)
    ensures Simplified(RepoSet(map[])) == Const(true) && ShardSimplify(sh, RepoSet(map[])) == Const(false)
  {
    assert Flatten(Const(true)) == (Const(true), false);
    assert Flatten(Const(false)) == (Const(false), false);
    assert Fold(RepoSet(map[])) == Const(true);
    var q := Map(RepoSet(map[]), OnRepo(sh.repoName, sh.languageMap));
    assert q == Const(false) && Fold(q) == Const(false);
  }

  /** Without empty repository sets, simplifying before the shard sees the query changes nothing. */
  lemma SimplifyFirstAgrees(sh: Shard, src: Source, d: nat, other: RQ.OtherOps, q: Q)
    requires Evaluable(sh, src, other) && d < |src.contents|
    requires AllAtoms(q, (a: Q) => a.RepoSet? ==> a.repos != map[])
    ensures Holds(ShardSimplify(sh, Simplified(q)), On(sh, src, d)) == Holds(q, On(sh, src, d))
  {
    hide EngineOk;
    ShardSimplifyMeaning(sh, src, d, other, Simplified(q));
    var env := On(sh, src, d);
    forall a: Q | a.IsAtom() && (a.RepoSet? ==> a.repos != map[]) ensures Vacuous(a) ==> env(a) {
      if Vacuous(a) {
        VacuousAtomsHold(sh, src, d, other, a);
      }
    }
    AtomsImply(q, (a: Q) => a.RepoSet? ==> a.repos != map[], (a: Q) => Vacuous(a) ==> env(a));
    SimplifyMeaningHere(q, env);
  }
}
