/** Queries and their simplification (query/query.go). */
module Query {
  import opened Machine
  import opened Utf8

  /** The part of regexp/syntax trees that matters here; every other operator is `Other`. */
  datatype Regexp =
    | Literal(runes: seq<Rune>, foldCase: bool)
    | Capture(sub: Regexp)
    | Star(sub: Regexp)
    | Plus(sub: Regexp)
    | Quest(sub: Regexp)
    | Repeat(sub: Regexp, min: nat, max: Option<nat>)
    | Concat(subs: seq<Regexp>)
    | Alternate(subs: seq<Regexp>)
    | EmptyMatch
    | Other(op: nat)

  datatype SubstringQ = SubstringQ(pattern: seq<byte>, caseSensitive: bool, fileName: bool, content: bool)

  datatype Q =
    | And(children: seq<Q>)
    | Or(children: seq<Q>)
    | Not(child: Q)
    | Const(value: bool)
    | Substring(sub: SubstringQ)
    | Regex(re: Regexp, caseSensitive: bool, fileName: bool, content: bool)
    | Symbol(sub: SubstringQ)
    | Repo(pattern: string)
    | RepoSet(repos: map<string, bool>)
    | Language(language: string)
    | Branch(pattern: string)
  {
    predicate IsAtom() {
      !And? && !Or? && !Not? && !Const?
    }
  }

  /** The boolean meaning of a query, given the meaning of its atoms. */
  ghost predicate Holds(q: Q, env: Q -> bool)
    decreases q, 1
  {
    match q
    case And(cs) => AllHold(cs, env)
    case Or(cs) => AnyHolds(cs, env)
    case Not(c) => !Holds(c, env)
    case Const(v) => v
    case _ => env(q)
  }

  ghost predicate AllHold(cs: seq<Q>, env: Q -> bool)
    decreases cs, 0
  {
    forall i :: 0 <= i < |cs| ==> Holds(cs[i], env)
  }

  ghost predicate AnyHolds(cs: seq<Q>, env: Q -> bool)
    decreases cs, 0
  {
    exists i :: 0 <= i < |cs| && Holds(cs[i], env)
  }

  /** Atoms that ask for nothing (query.go:380-395). */
  predicate Vacuous(q: Q) {
    match q
    case Substring(s) => s.pattern == []
    case Regex(re, _, _, _) => re.EmptyMatch?
    case Branch(p) => p == ""
    case RepoSet(rs) => rs == map[]
    case _ => false
  }

  /** A meaning under which the vacuous atoms hold. */
  ghost predicate VacuousHold(env: Q -> bool) {
    forall q :: Vacuous(q) ==> env(q)
  }

  function Size(q: Q): (n: nat)
    ensures n >= 1
    decreases q, 1
  {
    match q
    case And(cs) => 1 + SizeOf(cs)
    case Or(cs) => 1 + SizeOf(cs)
    case Not(c) => 1 + Size(c)
    case _ => 1
  }

  function SizeOf(cs: seq<Q>): nat
    decreases cs, 0
  {
    if cs == [] then 0 else Size(cs[0]) + SizeOf(cs[1..])
  }

  // ----- constants -----

  /** The children that are not constants. */
  function Undecided(cs: seq<Q>): (r: seq<Q>)
    ensures SizeOf(r) <= SizeOf(cs)
  {
    if cs == [] then []
    else if cs[0].Const? then Undecided(cs[1..])
    else
      var r := [cs[0]] + Undecided(cs[1..]);
      assert r[1..] == Undecided(cs[1..]);
      r
  }

  function Connect(isAnd: bool, cs: seq<Q>): Q {
    if isAnd then And(cs) else Or(cs)
  }

  /** The loop of evalAndOrConstants: a deciding constant wins, the others drop out (query.go:347-365). */
  function Combine(isAnd: bool, cs: seq<Q>): (q: Q)
    ensures Size(q) <= 1 + SizeOf(cs)
  {
    if Const(!isAnd) in cs then Const(!isAnd)
    else if Undecided(cs) == [] then Const(isAnd)
    else Connect(isAnd, Undecided(cs))
  }

  function EvalAtom(q: Q): Q {
    if Vacuous(q) then Const(true) else q
  }

  function Negate(q: Q): Q {
    if q.Const? then Const(!q.value) else Not(q)
  }

  /** evalConstants, which evaluates its children by Map(child, evalConstants). */
  function EvalConstants(q: Q): (r: Q)
    ensures Size(r) <= Size(q)
    decreases Size(q), 0
  {
    match q
    case And(cs) => Combine(true, MapEvalList(cs))
    case Or(cs) => Combine(false, MapEvalList(cs))
    case Not(c) => Negate(EvalConstants(c))
    case _ => EvalAtom(q)
  }

  /** Map(q, evalConstants): bottom-up, evaluating again at every node. */
  function MapEval(q: Q): (r: Q)
    ensures Size(r) <= Size(q)
    decreases Size(q), 2
  {
    match q
    case And(cs) => EvalConstants(And(MapEvalList(cs)))
    case Or(cs) => EvalConstants(Or(MapEvalList(cs)))
    case Not(c) => EvalConstants(Not(MapEval(c)))
    case _ => EvalConstants(q)
  }

  function MapEvalList(cs: seq<Q>): (r: seq<Q>)
    ensures SizeOf(r) <= SizeOf(cs)
    decreases SizeOf(cs), 3
  {
    if cs == [] then []
    else
      var r := [MapEval(cs[0])] + MapEvalList(cs[1..]);
      assert r[1..] == MapEvalList(cs[1..]);
      r
  }

  /** The same in one pass from the leaves up. */
  function Fold(q: Q): Q
    decreases q, 1
  {
    match q
    case And(cs) => Combine(true, FoldList(cs))
    case Or(cs) => Combine(false, FoldList(cs))
    case Not(c) => Negate(Fold(c))
    case _ => EvalAtom(q)
  }

  function FoldList(cs: seq<Q>): (r: seq<Q>)
    ensures |r| == |cs| && forall i :: 0 <= i < |cs| ==> r[i] == Fold(cs[i])
    decreases cs, 0
  {
    if cs == [] then [] else [Fold(cs[0])] + FoldList(cs[1..])
  }

  /** No constants, no vacuous atoms, no empty and/or. */
  ghost predicate Clean(q: Q)
    decreases q, 1
  {
    match q
    case And(cs) => cs != [] && AllClean(cs)
    case Or(cs) => cs != [] && AllClean(cs)
    case Not(c) => Clean(c)
    case Const(_) => false
    case _ => !Vacuous(q)
  }

  ghost predicate AllClean(cs: seq<Q>)
    decreases cs, 0
  {
    forall i :: 0 <= i < |cs| ==> Clean(cs[i])
  }

  lemma {:induction false} UndecidedExact(cs: seq<Q>)
    ensures forall c :: c in Undecided(cs) <==> c in cs && !c.Const?
    ensures (forall i :: 0 <= i < |cs| ==> !cs[i].Const?) ==> Undecided(cs) == cs
  {
    if cs != [] {
      UndecidedExact(cs[1..]);
      assert cs == [cs[0]] + cs[1..];
    }
  }

  lemma {:induction false} FoldClean(q: Q)
    ensures Fold(q).Const? || Clean(Fold(q))
    decreases q
  {
    match q
    case And(cs) => FoldCleanList(cs, true);
    case Or(cs) => FoldCleanList(cs, false);
    case Not(c) => FoldClean(c);
    case _ =>
  }

  lemma {:induction false} FoldCleanList(cs: seq<Q>, isAnd: bool)
    ensures var r := Combine(isAnd, FoldList(cs)); r.Const? || Clean(r)
    decreases cs
  {
    forall i | 0 <= i < |cs| ensures Fold(cs[i]).Const? || Clean(Fold(cs[i])) {
      FoldClean(cs[i]);
    }
    var fs := FoldList(cs);
    UndecidedExact(fs);
    forall i | 0 <= i < |Undecided(fs)| ensures Clean(Undecided(fs)[i]) {
      assert Undecided(fs)[i] in Undecided(fs);
      var j :| 0 <= j < |fs| && fs[j] == Undecided(fs)[i];
    }
  }

  /** Folding leaves clean queries alone, hence is idempotent. */
  lemma {:induction false} CleanFixed(q: Q)
    requires Clean(q)
    ensures Fold(q) == q
    decreases q
  {
    match q
    case And(cs) => CleanFixedList(cs);
    case Or(cs) => CleanFixedList(cs);
    case Not(c) => CleanFixed(c);
    case _ =>
  }

  lemma {:induction false} CleanFixedList(cs: seq<Q>)
    requires AllClean(cs)
    ensures FoldList(cs) == cs && Undecided(cs) == cs && Const(true) !in cs && Const(false) !in cs
    decreases cs
  {
    forall i | 0 <= i < |cs| ensures Fold(cs[i]) == cs[i] && !cs[i].Const? {
      CleanFixed(cs[i]);
    }
    UndecidedExact(cs);
  }

  lemma FoldIdempotent(q: Q)
    ensures Fold(Fold(q)) == Fold(q)
  {
    FoldClean(q);
    if Clean(Fold(q)) {
      CleanFixed(Fold(q));
    }
  }

  /** evalConstants, for all its repeated evaluation, is the one-pass fold; so is mapping it. */
  lemma {:induction false} EvalIsFold(q: Q)
    ensures EvalConstants(q) == Fold(q)
    decreases Size(q), 1
  {
    match q
    case And(cs) => MapEvalListIsFold(cs);
    case Or(cs) => MapEvalListIsFold(cs);
    case Not(c) => EvalIsFold(c);
    case _ =>
  }

  lemma {:induction false} MapEvalIsFold(q: Q)
    ensures MapEval(q) == Fold(q)
    decreases Size(q), 2
  {
    match q
    case And(cs) =>
      MapEvalListIsFold(cs);
      EvalIsFold(And(FoldList(cs)));
      FoldListTwice(cs);
    case Or(cs) =>
      MapEvalListIsFold(cs);
      EvalIsFold(Or(FoldList(cs)));
      FoldListTwice(cs);
    case Not(c) =>
      MapEvalIsFold(c);
      EvalIsFold(Not(Fold(c)));
      FoldIdempotent(c);
    case _ => EvalIsFold(q);
  }

  lemma {:induction false} MapEvalListIsFold(cs: seq<Q>)
    ensures MapEvalList(cs) == FoldList(cs)
    ensures SizeOf(FoldList(cs)) <= SizeOf(cs)
    decreases SizeOf(cs), 3
  {
    if cs != [] {
      MapEvalIsFold(cs[0]);
      MapEvalListIsFold(cs[1..]);
    }
  }

  lemma FoldListTwice(cs: seq<Q>)
    ensures FoldList(FoldList(cs)) == FoldList(cs)
  {
    forall i | 0 <= i < |cs| ensures Fold(FoldList(cs)[i]) == FoldList(cs)[i] {
      FoldIdempotent(cs[i]);
    }
  }
}
