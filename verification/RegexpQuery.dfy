/** Distilling a substring query from a regular expression (query/regexp.go). */
module RegexpQuery {
  import opened Machine
  import opened Utf8
  import opened Query
  import opened Simplify
  import opened QueryMap

  /** The substring that a literal becomes: string(r.Rune), without its fold-case flag. */
  function LiteralQuery(rs: seq<Rune>): Q {
    Substring(SubstringQ(EncodeAll(rs), false, false, false))
  }

  /** regexpToQueryRecursive. */
  function ToQuery(re: Regexp, minTextSize: nat): Q
    decreases re, 1
  {
    match re
    case Literal(rs, _) => if |EncodeAll(rs)| >= minTextSize then LiteralQuery(rs) else Const(true)
    case Capture(s) => ToQuery(s, minTextSize)
    case Plus(s) => ToQuery(s, minTextSize)
    case Repeat(s, min, _) => if min >= 1 then ToQuery(s, minTextSize) else Const(true)
    case Concat(ss) => And(ToQueries(ss, minTextSize))
    case Alternate(ss) => Or(ToQueries(ss, minTextSize))
    case _ => Const(true)
  }

  function ToQueries(ss: seq<Regexp>, minTextSize: nat): (qs: seq<Q>)
    ensures |qs| == |ss| && forall i :: 0 <= i < |ss| ==> qs[i] == ToQuery(ss[i], minTextSize)
    decreases ss, 0
  {
    if ss == [] then [] else [ToQuery(ss[0], minTextSize)] + ToQueries(ss[1..], minTextSize)
  }

  /** RegexpToQuery. */
  function RegexpToQuery(re: Regexp, minTextSize: nat): Q {
    Simplified(ToQuery(re, minTextSize))
  }

  /** All the literals that become substrings are in `p`. */
  ghost predicate Distils(re: Regexp, min: nat, p: (seq<Rune>, bool) -> bool) {
    match re
    case Literal(rs, fold) => |EncodeAll(rs)| >= min ==> p(rs, fold)
    case Capture(s) => Distils(s, min, p)
    case Plus(s) => Distils(s, min, p)
    case Repeat(s, lo, _) => lo >= 1 ==> Distils(s, min, p)
    case Concat(ss) => forall i :: 0 <= i < |ss| ==> Distils(ss[i], min, p)
    case Alternate(ss) => forall i :: 0 <= i < |ss| ==> Distils(ss[i], min, p)
    case _ => true
  }

  // ----- what a regular expression matches -----

  /** What the other operators match (character classes, anchors, any character), case sensitive or not. */
  type OtherOps = (bool, nat, seq<Rune>, int, int) -> bool

  /** How the runes of a literal compare, with or without its fold-case flag, and what the other operators match. */
  datatype Engine = Engine(same: (bool, Rune, Rune) -> bool, other: (nat, seq<Rune>, int, int) -> bool)

  ghost predicate RunesHere(e: Engine, fold: bool, rs: seq<Rune>, text: seq<Rune>, i: int) {
    0 <= i && i + |rs| <= |text| && forall k :: 0 <= k < |rs| ==> e.same(fold, rs[k], text[i + k])
  }

  /** `re` matches the text from `i` to `j`. */
  ghost predicate Matches(e: Engine, re: Regexp, text: seq<Rune>, i: int, j: int)
    decreases re, 2
  {
    match re
    case Literal(rs, fold) => j == i + |rs| && RunesHere(e, fold, rs, text, i)
    case Capture(s) => Matches(e, s, text, i, j)
    case Star(s) => exists n :: Repeated(e, s, text, i, j, n)
    case Plus(s) => exists n :: n >= 1 && Repeated(e, s, text, i, j, n)
    case Quest(s) => i == j || Matches(e, s, text, i, j)
    case Repeat(s, min, max) =>
      exists n :: min <= n && (max.Some? ==> n <= max.value) && Repeated(e, s, text, i, j, n)
    case Concat(ss) => InTurn(e, ss, text, i, j)
    case Alternate(ss) => exists k :: 0 <= k < |ss| && Matches(e, ss[k], text, i, j)
    case EmptyMatch => i == j
    case Other(op) => e.other(op, text, i, j)
  }

  /** `n` matches one after the other. */
  ghost predicate Repeated(e: Engine, re: Regexp, text: seq<Rune>, i: int, j: int, n: nat)
    decreases re, 3, n
  {
    if n == 0 then i == j
    else exists k :: Matches(e, re, text, i, k) && Repeated(e, re, text, k, j, n - 1)
  }

  ghost predicate InTurn(e: Engine, ss: seq<Regexp>, text: seq<Rune>, i: int, j: int)
    decreases ss, 1
  {
    if ss == [] then i == j
    else exists k :: Matches(e, ss[0], text, i, k) && InTurn(e, ss[1..], text, k, j)
  }

  /** The expression matches somewhere in the text. */
  ghost predicate MatchesSomewhere(e: Engine, re: Regexp, text: seq<Rune>) {
    exists i, j :: Matches(e, re, text, i, j)
  }

  lemma LiteralSomewhere(e: Engine, rs: seq<Rune>, fold: bool, text: seq<Rune>)
    ensures MatchesSomewhere(e, Literal(rs, fold), text) <==> exists i :: RunesHere(e, fold, rs, text, i)
  {
    hide RunesHere;
    if i :| RunesHere(e, fold, rs, text, i) {
      assert Matches(e, Literal(rs, fold), text, i, i + |rs|);
    }
    if MatchesSomewhere(e, Literal(rs, fold), text) {
      var i, j :| Matches(e, Literal(rs, fold), text, i, j);
      assert RunesHere(e, fold, rs, text, i);
    }
  }

  lemma FirstOfRepeated(e: Engine, re: Regexp, text: seq<Rune>, i: int, j: int, n: nat) returns (k: int)
    requires n >= 1 && Repeated(e, re, text, i, j, n)
    ensures Matches(e, re, text, i, k)
  {
    k :| Matches(e, re, text, i, k) && Repeated(e, re, text, k, j, n - 1);
  }

  // ----- the prefilter -----

  /** Where the engine sees the literal in the text, the meaning `env` finds its substring. */
  ghost function Finds(e: Engine, text: seq<Rune>, env: Q -> bool): (seq<Rune>, bool) -> bool {
    (rs: seq<Rune>, fold: bool) => (exists i :: RunesHere(e, fold, rs, text, i)) ==> env(LiteralQuery(rs))
  }

  /** Where the expression matches, the distilled query holds. */
  lemma {:induction false} MatchImpliesQuery(e: Engine, re: Regexp, text: seq<Rune>, i: int, j: int, min: nat, env: Q -> bool)
    requires Distils(re, min, Finds(e, text, env)) && Matches(e, re, text, i, j)
    ensures Holds(ToQuery(re, min), env)
    decreases re, 1
  {
    match re
    case Literal(rs, fold) => assert RunesHere(e, fold, rs, text, i);
    case Capture(s) => MatchImpliesQuery(e, s, text, i, j, min, env);
    case Plus(s) =>
      var n :| n >= 1 && Repeated(e, s, text, i, j, n);
      var k := FirstOfRepeated(e, s, text, i, j, n);
      MatchImpliesQuery(e, s, text, i, k, min, env);
    case Repeat(s, lo, hi) =>
      var n :| lo <= n && (hi.Some? ==> n <= hi.value) && Repeated(e, s, text, i, j, n);
      if lo >= 1 {
        var k := FirstOfRepeated(e, s, text, i, j, n);
        MatchImpliesQuery(e, s, text, i, k, min, env);
      }
    case Concat(ss) => InTurnImpliesQueries(e, ss, text, i, j, min, env);
    case Alternate(ss) =>
      var k :| 0 <= k < |ss| && Matches(e, ss[k], text, i, j);
      MatchImpliesQuery(e, ss[k], text, i, j, min, env);
      assert Holds(ToQueries(ss, min)[k], env);
    case _ =>
  }

  lemma {:induction false} InTurnImpliesQueries(e: Engine, ss: seq<Regexp>, text: seq<Rune>, i: int, j: int, min: nat, env: Q -> bool)
    requires (forall k :: 0 <= k < |ss| ==> Distils(ss[k], min, Finds(e, text, env))) && InTurn(e, ss, text, i, j)
    ensures AllHold(ToQueries(ss, min), env)
    decreases ss, 0
  {
    if ss != [] {
      var k :| Matches(e, ss[0], text, i, k) && InTurn(e, ss[1..], text, k, j);
      MatchImpliesQuery(e, ss[0], text, i, k, min, env);
      InTurnImpliesQueries(e, ss[1..], text, k, j, min, env);
      assert ToQueries(ss, min)[1..] == ToQueries(ss[1..], min);
    }
  }

  /** The atoms of the distilled query are the distilled literals. */
  lemma {:induction false} DistilledAtoms(re: Regexp, min: nat, p: (seq<Rune>, bool) -> bool, ok: Q -> bool)
    requires Distils(re, min, p) && forall rs, fold :: |EncodeAll(rs)| >= min && p(rs, fold) ==> ok(LiteralQuery(rs))
    ensures AllAtoms(ToQuery(re, min), ok)
    decreases re
  {
    match re
    case Capture(s) => DistilledAtoms(s, min, p, ok);
    case Plus(s) => DistilledAtoms(s, min, p, ok);
    case Repeat(s, lo, _) => if lo >= 1 { DistilledAtoms(s, min, p, ok); }
    case Concat(ss) => forall i | 0 <= i < |ss| ensures AllAtoms(ToQueries(ss, min)[i], ok) { DistilledAtoms(ss[i], min, p, ok); }
    case Alternate(ss) => forall i | 0 <= i < |ss| ensures AllAtoms(ToQueries(ss, min)[i], ok) { DistilledAtoms(ss[i], min, p, ok); }
    case _ =>
  }

  lemma EmptyFound(e: Engine, text: seq<Rune>, env: Q -> bool, rs: seq<Rune>, fold: bool)
    requires Finds(e, text, env)(rs, fold) && Vacuous(LiteralQuery(rs))
    ensures env(LiteralQuery(rs))
  {
    assert rs == [];
    assert RunesHere(e, fold, rs, text, 0);
  }

  /**
   * The prefilter passes every text the expression matches, so adding it to the expression changes nothing, as soon
   * as each distilled literal is found where the engine sees it.
   */
  lemma PrefilterSound(e: Engine, re: Regexp, text: seq<Rune>, min: nat, env: Q -> bool)
    requires Distils(re, min, Finds(e, text, env))
    ensures MatchesSomewhere(e, re, text) ==> Holds(RegexpToQuery(re, min), env)
    ensures (MatchesSomewhere(e, re, text) && Holds(RegexpToQuery(re, min), env)) == MatchesSomewhere(e, re, text)
  {
    hide Distils, Simplified, Matches;
    if MatchesSomewhere(e, re, text) {
      var i, j :| Matches(e, re, text, i, j);
      MatchImpliesQuery(e, re, text, i, j, min, env);
      var p, ok := Finds(e, text, env), (a: Q) => Vacuous(a) ==> env(a);
      forall rs, fold | |EncodeAll(rs)| >= min && p(rs, fold) ensures ok(LiteralQuery(rs)) {
        if Vacuous(LiteralQuery(rs)) {
          EmptyFound(e, text, env, rs, fold);
        }
      }
      DistilledAtoms(re, min, p, ok);
      SimplifyMeaningHere(ToQuery(re, min), env);
    }
  }

  // ----- what is demanded -----

  /**
   * The long literals on one way through the expression: all of a concatenation, those of one alternative, and none of
   * what may be left out.
   */
  ghost predicate IsWay(re: Regexp, min: nat, ls: set<seq<Rune>>)
    decreases re, 1
  {
    match re
    case Literal(rs, _) => ls == if |EncodeAll(rs)| >= min then {rs} else {}
    case Capture(s) => IsWay(s, min, ls)
    case Plus(s) => IsWay(s, min, ls)
    case Repeat(s, lo, _) => if lo == 0 then ls == {} else IsWay(s, min, ls)
    case Concat(ss) => IsWayThrough(ss, min, ls)
    case Alternate(ss) => exists i :: 0 <= i < |ss| && IsWay(ss[i], min, ls)
    case _ => ls == {}
  }

  ghost predicate IsWayThrough(ss: seq<Regexp>, min: nat, ls: set<seq<Rune>>)
    decreases ss, 0
  {
    if ss == [] then ls == {}
    else exists a, b :: IsWay(ss[0], min, a) && IsWayThrough(ss[1..], min, b) && ls == a + b
  }

  /** All these literals are found. */
  ghost predicate AllFound(ls: set<seq<Rune>>, env: Q -> bool) {
    forall rs :: rs in ls ==> env(LiteralQuery(rs))
  }

  ghost predicate SomeWay(re: Regexp, min: nat, env: Q -> bool) {
    exists ls :: IsWay(re, min, ls) && AllFound(ls, env)
  }

  lemma AllFoundBoth(a: set<seq<Rune>>, b: set<seq<Rune>>, env: Q -> bool)
    ensures AllFound(a + b, env) <==> AllFound(a, env) && AllFound(b, env)
  {
  }

  /** The distilled query demands the literals of some way, no fewer and no more. */
  lemma {:induction false} QueryIffWay(re: Regexp, min: nat, env: Q -> bool)
    ensures Holds(ToQuery(re, min), env) <==> SomeWay(re, min, env)
    decreases re, 1
  {
    match re
    case Literal(rs, fold) => LiteralWay(rs, fold, min, env);
    case Capture(s) => QueryIffWay(s, min, env); SameWays(s, re, min, env);
    case Plus(s) => QueryIffWay(s, min, env); SameWays(s, re, min, env);
    case Repeat(s, lo, _) =>
      if lo == 0 {
        NoWayNeeded(re, min, env);
      } else {
        QueryIffWay(s, min, env);
        SameWays(s, re, min, env);
      }
    case Concat(ss) => QueriesIffWay(ss, min, env); ConcatWay(re, min, env);
    case Alternate(ss) => AlternateWay(re, min, env);
    case _ => NoWayNeeded(re, min, env);
  }

  lemma LiteralWay(rs: seq<Rune>, fold: bool, min: nat, env: Q -> bool)
    ensures Holds(ToQuery(Literal(rs, fold), min), env) <==> SomeWay(Literal(rs, fold), min, env)
  {
    hide EncodeAll;
    var ls: set<seq<Rune>> := if |EncodeAll(rs)| >= min then {rs} else {};
    assert IsWay(Literal(rs, fold), min, ls);
    if |EncodeAll(rs)| >= min {
      assert rs in ls;
    }
  }

  lemma SameWays(s: Regexp, re: Regexp, min: nat, env: Q -> bool)
    requires forall ls :: IsWay(s, min, ls) == IsWay(re, min, ls)
    ensures SomeWay(s, min, env) == SomeWay(re, min, env)
  {
    hide IsWay;
  }

  lemma NoWayNeeded(re: Regexp, min: nat, env: Q -> bool)
    requires forall ls :: IsWay(re, min, ls) <==> ls == {}
    ensures SomeWay(re, min, env)
  {
    hide IsWay;
    assert IsWay(re, min, {}) && AllFound({}, env);
  }

  lemma ConcatWay(re: Regexp, min: nat, env: Q -> bool)
    requires re.Concat?
    ensures SomeWay(re, min, env) <==> exists ls :: IsWayThrough(re.subs, min, ls) && AllFound(ls, env)
  {
    hide IsWayThrough, AllFound;
    assert forall ls :: IsWay(re, min, ls) == IsWayThrough(re.subs, min, ls);
  }

  lemma {:induction false} QueriesIffWay(ss: seq<Regexp>, min: nat, env: Q -> bool)
    ensures AllHold(ToQueries(ss, min), env) <==> exists ls :: IsWayThrough(ss, min, ls) && AllFound(ls, env)
    decreases ss, 0
  {
    hide IsWay;
    if ss == [] {
      assert IsWayThrough(ss, min, {}) && AllFound({}, env);
    } else {
      QueryIffWay(ss[0], min, env);
      QueriesIffWay(ss[1..], min, env);
      AllHoldSplit(ss, min, env);
      WayThroughSplit(ss, min, env);
    }
  }

  lemma AllHoldSplit(ss: seq<Regexp>, min: nat, env: Q -> bool)
    requires ss != []
    ensures AllHold(ToQueries(ss, min), env) <==> Holds(ToQuery(ss[0], min), env) && AllHold(ToQueries(ss[1..], min), env)
  {
    hide Holds, ToQuery;
    var qs, rest := ToQueries(ss, min), ToQueries(ss[1..], min);
    assert qs == [qs[0]] + rest;
    assert forall i :: 0 <= i < |rest| ==> rest[i] == qs[i + 1];
  }

  lemma WayThroughSplit(ss: seq<Regexp>, min: nat, env: Q -> bool)
    requires ss != []
    ensures (exists ls :: IsWayThrough(ss, min, ls) && AllFound(ls, env)) <==>
            SomeWay(ss[0], min, env) && exists ls :: IsWayThrough(ss[1..], min, ls) && AllFound(ls, env)
  {
    hide IsWay, AllFound;
    if ls :| IsWayThrough(ss, min, ls) && AllFound(ls, env) {
      var a, b :| IsWay(ss[0], min, a) && IsWayThrough(ss[1..], min, b) && ls == a + b;
      AllFoundBoth(a, b, env);
    }
    if SomeWay(ss[0], min, env) && exists ls :: IsWayThrough(ss[1..], min, ls) && AllFound(ls, env) {
      var a :| IsWay(ss[0], min, a) && AllFound(a, env);
      var b :| IsWayThrough(ss[1..], min, b) && AllFound(b, env);
      AllFoundBoth(a, b, env);
      assert IsWayThrough(ss, min, a + b);
    }
  }

  lemma {:induction false} AlternateWay(re: Regexp, min: nat, env: Q -> bool)
    requires re.Alternate?
    ensures Holds(ToQuery(re, min), env) <==> SomeWay(re, min, env)
    decreases re, 0
  {
    hide AllFound;
    var ss, qs := re.subs, ToQueries(re.subs, min);
    forall i | 0 <= i < |ss| ensures Holds(qs[i], env) <==> SomeWay(ss[i], min, env) {
      QueryIffWay(ss[i], min, env);
    }
    if SomeWay(re, min, env) {
      var ls :| IsWay(re, min, ls) && AllFound(ls, env);
      var i :| 0 <= i < |ss| && IsWay(ss[i], min, ls);
      assert Holds(qs[i], env);
    }
    if AnyHolds(qs, env) {
      var i :| 0 <= i < |qs| && Holds(qs[i], env);
      var ls :| IsWay(ss[i], min, ls) && AllFound(ls, env);
      assert IsWay(re, min, ls);
    }
  }

  /** The same of the simplified query: it is the strongest that can be asked of the literals on the ways. */
  lemma PrefilterIffWay(re: Regexp, min: nat, env: Q -> bool)
    requires min == 0 ==> env(LiteralQuery([]))
    ensures Holds(RegexpToQuery(re, min), env) <==> SomeWay(re, min, env)
  {
    hide ToQuery, Simplified;
    QueryIffWay(re, min, env);
    var any: (seq<Rune>, bool) -> bool := (rs, fold) => true;
    var ok := (a: Q) => Vacuous(a) ==> env(a);
    AnyDistils(re, min, any);
    forall rs, fold | |EncodeAll(rs)| >= min && any(rs, fold) ensures ok(LiteralQuery(rs)) {
      if Vacuous(LiteralQuery(rs)) {
        assert rs == [];
      }
    }
    DistilledAtoms(re, min, any, ok);
    SimplifyMeaningHere(ToQuery(re, min), env);
  }

  lemma {:induction false} AnyDistils(re: Regexp, min: nat, any: (seq<Rune>, bool) -> bool)
    requires forall rs, fold :: any(rs, fold)
    ensures Distils(re, min, any)
    decreases re
  {
    match re
    case Capture(s) => AnyDistils(s, min, any);
    case Plus(s) => AnyDistils(s, min, any);
    case Repeat(s, lo, _) => if lo >= 1 { AnyDistils(s, min, any); }
    case Concat(ss) => forall i | 0 <= i < |ss| ensures Distils(ss[i], min, any) { AnyDistils(ss[i], min, any); }
    case Alternate(ss) => forall i | 0 <= i < |ss| ensures Distils(ss[i], min, any) { AnyDistils(ss[i], min, any); }
    case _ =>
  }

  // ----- two ways to compare runes -----

  /** The runes stand at `i`, compared by `near`. */
  ghost predicate NearHere(near: (Rune, Rune) -> bool, rs: seq<Rune>, text: seq<Rune>, i: int) {
    0 <= i && i + |rs| <= |text| && forall k :: 0 <= k < |rs| ==> near(rs[k], text[i + k])
  }

  /** The meaning of the distilled query on a text if substrings compare runes by `near`. */
  ghost function OnText(near: (Rune, Rune) -> bool, text: seq<Rune>): Q -> bool {
    (q: Q) => q.Substring? ==> exists i :: NearHere(near, Runes(q.sub.pattern), text, i)
  }

  /** Runes that the engine takes for one of the literal are near it. */
  ghost predicate StaysNear(e: Engine, near: (Rune, Rune) -> bool, rs: seq<Rune>, fold: bool) {
    forall k, x: Rune :: 0 <= k < |rs| && Scalar(x) && e.same(fold, rs[k], x) ==> near(rs[k], x)
  }

  /** Every text that an expression with distilled literals from `p` matches passes its prefilter. */
  ghost predicate AlwaysPasses(e: Engine, near: (Rune, Rune) -> bool, min: nat, p: (seq<Rune>, bool) -> bool) {
    forall re, text: seq<byte> :: Distils(re, min, p) && MatchesSomewhere(e, re, Runes(text)) ==>
      Holds(RegexpToQuery(re, min), OnText(near, Runes(text)))
  }

  lemma NearFound(e: Engine, near: (Rune, Rune) -> bool, rs: seq<Rune>, fold: bool, text: seq<byte>)
    requires Scalars(rs) && StaysNear(e, near, rs, fold)
    ensures Finds(e, Runes(text), OnText(near, Runes(text)))(rs, fold)
  {
    hide Runes, EncodeAll;
    RunesScalar(text);
    if i :| RunesHere(e, fold, rs, Runes(text), i) {
      RunesOfEncodeAll(rs);
      assert NearHere(near, rs, Runes(text), i);
      assert OnText(near, Runes(text))(LiteralQuery(rs));
    }
  }

  lemma {:induction false} DistilsMore(re: Regexp, min: nat, p: (seq<Rune>, bool) -> bool, p': (seq<Rune>, bool) -> bool)
    requires Distils(re, min, p) && forall rs, fold :: p(rs, fold) ==> p'(rs, fold)
    ensures Distils(re, min, p')
    decreases re
  {
    match re
    case Capture(s) => DistilsMore(s, min, p, p');
    case Plus(s) => DistilsMore(s, min, p, p');
    case Repeat(s, lo, _) => if lo >= 1 { DistilsMore(s, min, p, p'); }
    case Concat(ss) => forall i | 0 <= i < |ss| ensures Distils(ss[i], min, p') { DistilsMore(ss[i], min, p, p'); }
    case Alternate(ss) => forall i | 0 <= i < |ss| ensures Distils(ss[i], min, p') { DistilsMore(ss[i], min, p, p'); }
    case _ =>
  }

  /** A literal is lost in the text in which one rune is replaced by one that the engine takes for it, and the query does not. */
  lemma LiteralLost(e: Engine, near: (Rune, Rune) -> bool, min: nat, rs: seq<Rune>, fold: bool, k: nat, x: Rune) returns (text: seq<byte>)
    requires Scalars(rs) && |EncodeAll(rs)| >= min && k < |rs| && Scalar(x) && e.same(fold, rs[k], x) && !near(rs[k], x)
    requires forall a: Rune :: e.same(fold, a, a)
    ensures MatchesSomewhere(e, Literal(rs, fold), Runes(text))
    ensures !Holds(RegexpToQuery(Literal(rs, fold), min), OnText(near, Runes(text)))
  {
    hide EncodeAll, Runes, Matches, RegexpToQuery, OnText, MatchesSomewhere;
    var runes := rs[k := x];
    text := EncodeAll(runes);
    RunesOfEncodeAll(runes);
    RunesOfEncodeAll(rs);
    assert RunesHere(e, fold, rs, runes, 0);
    LiteralSomewhere(e, rs, fold, runes);
    NotNear(near, rs, runes, k);
    NoRunes();
    LiteralSimplified(rs, fold, min);
  }

  lemma NotNear(near: (Rune, Rune) -> bool, rs: seq<Rune>, runes: seq<Rune>, k: nat)
    requires k < |rs| == |runes| && !near(rs[k], runes[k]) && Runes(EncodeAll(rs)) == rs
    ensures !Holds(LiteralQuery(rs), OnText(near, runes))
  {
    hide EncodeAll, Runes;
    forall i ensures !NearHere(near, rs, runes, i) {
      assert runes[k] == runes[0 + k];
    }
  }

  lemma NoRunes()
    ensures Runes([]) == []
  {
  }

  lemma LiteralSimplified(rs: seq<Rune>, fold: bool, min: nat)
    requires |EncodeAll(rs)| >= min && EncodeAll(rs) != []
    ensures RegexpToQuery(Literal(rs, fold), min) == LiteralQuery(rs)
  {
    var q := LiteralQuery(rs);
    assert Fold(q) == q && Flatten(q) == (q, false);
  }

  /**
   * Exactly when the prefilter is safe for all expressions with distilled literals from `p`, in all texts: when no
   * rune that the engine takes for a rune of such a literal is one that the query does not.
   */
  lemma PrefilterSoundIff(e: Engine, near: (Rune, Rune) -> bool, min: nat, p: (seq<Rune>, bool) -> bool)
    requires forall rs, fold :: p(rs, fold) ==> Scalars(rs) && |EncodeAll(rs)| >= min
    requires forall fold, a: Rune :: e.same(fold, a, a)
    ensures AlwaysPasses(e, near, min, p) <==> forall rs, fold :: p(rs, fold) ==> StaysNear(e, near, rs, fold)
  {
    hide Simplified, Matches, EncodeAll, Runes;
    if forall rs, fold :: p(rs, fold) ==> StaysNear(e, near, rs, fold) {
      forall re, text: seq<byte> | Distils(re, min, p) && MatchesSomewhere(e, re, Runes(text))
        ensures Holds(RegexpToQuery(re, min), OnText(near, Runes(text)))
      {
        var env := OnText(near, Runes(text));
        var p' := Finds(e, Runes(text), env);
        forall rs, fold | p(rs, fold) ensures p'(rs, fold) { NearFound(e, near, rs, fold, text); }
        DistilsMore(re, min, p, p');
        PrefilterSound(e, re, Runes(text), min, env);
      }
    }
    if AlwaysPasses(e, near, min, p) {
      forall rs, fold | p(rs, fold) ensures StaysNear(e, near, rs, fold) {
        if !StaysNear(e, near, rs, fold) {
          var k, x: Rune :| 0 <= k < |rs| && Scalar(x) && e.same(fold, rs[k], x) && !near(rs[k], x);
          assert Distils(Literal(rs, fold), min, p);
          var text := LiteralLost(e, near, min, rs, fold, k, x);
        }
      }
    }
  }
}
