/** Searching one shard: from the query to the documents (indexData.Search, eval.go:76-137). */
module ShardSearch {
  import opened Machine
  import opened Utf8
  import opened Query
  import opened Simplify
  import opened QueryMap
  import opened ContentMatch
  import opened ContentSlices
  import opened CaseAgreement
  import opened TreeBuilder
  import opened ShardIndex
  import opened ShardEval
  import opened QueryTree
  import opened Corpus
  import opened TrigramLookup
  import opened NgramSearch
  import opened RuneLookup
  import opened SubstringMatching
  import opened DocumentMatches
  import opened SearchLoop
  import L = LineAssembly
  import RQ = RegexpQuery
  import T = MatchTree
  import A = MatchAtoms

  /** Without a flag both names and contents are searched (query.go:428-448). */
  function ExpandFileContent(q: Q): Q {
    match q
    case Substring(s) =>
      if !s.fileName && !s.content then Or([Substring(s.(fileName := true)), Substring(s.(content := true))]) else q
    case Regex(re, cs, fileName, content) =>
      if !fileName && !content then Or([Regex(re, cs, true, false), Regex(re, cs, false, true)]) else q
    case _ => q
  }

  function Expanded(q: Q): Q {
    Map(q, (a: Q) => ExpandFileContent(a))
  }

  /** The pattern is comparable with one kind of text, and of a sane size for it. */
  ghost predicate SuitedTo(sc: Scope, s: SubstringQ, fileName: bool) {
    Comparable(sc.tables, s, sc.src.Files(fileName)) && sc.RoomFor(fileName, s.caseSensitive, s.pattern)
  }

  /** The patterns of an atom compile, and are searchable in the texts that it searches. */
  ghost predicate AtomSane(sc: Scope, a: Q) {
    match a
    case Substring(s) =>
      && Compiles(s.pattern)
      && (s.fileName || !s.content ==> SuitedTo(sc, s, true))
      && (!s.fileName ==> SuitedTo(sc, s, false))
    case Symbol(s) => !s.fileName && Compiles(s.pattern) && SuitedTo(sc, s, false)
    case Regex(re, cs, fileName, content) =>
      && (fileName || !content ==> RQ.Distils(re, 3, LiteralsFit(sc, true, cs)))
      && (!fileName ==> RQ.Distils(re, 3, LiteralsFit(sc, false, cs)))
    case _ => true
  }

  ghost function Sane(sc: Scope): Q -> bool {
    (a: Q) => AtomSane(sc, a)
  }

  /** Up to case a pattern of three runes or more is suited to all documents if lower case stays on its fold cycles. */
  lemma FoldedIsSane(sc: Scope, s: SubstringQ)
    requires !s.caseSensitive && |Tokens(s.pattern)| >= 3
    requires forall i :: 0 <= i < |Tokens(s.pattern)| ==> LowerOnCycle(sc.tables, Runes(s.pattern)[i])
    requires forall fileName :: |Flat(Tokenize(sc.src.Files(fileName)))| + |Tokens(s.pattern)| <= MaxU32
    ensures AtomSane(sc, Substring(s))
  {
    hide Tokens, CaseTables.LowerFolds, LowerOnCycle, Flat, Tokenize;
    var n := Needle(s.pattern, LoweredBytes(sc.tables.lower, Runes(s.pattern)), false, sc.tables);
    forall fileName, d | 0 <= d < |sc.src.Files(fileName)|
      ensures sc.tables.LowerFolds(Runes(s.pattern), Runes(sc.src.Files(fileName)[d]))
    {
      OnCycleFolds(n, sc.src.Files(fileName)[d]);
    }
    assert SuitedTo(sc, s, true) && SuitedTo(sc, s, false);
  }

  /** Exactly, a UTF-8 pattern of three runes or more is suited to all documents if the file has room for it after them. */
  lemma ExactIsSane(sc: Scope, s: SubstringQ)
    requires s.caseSensitive && |Tokens(s.pattern)| >= 3 && ValidUtf8(s.pattern)
    requires forall fileName :: |Flat(Tokenize(sc.src.Files(fileName)))| + |Tokens(s.pattern)| <= MaxU32
                                && |Bytes(sc.src.Files(fileName))| + |s.pattern| <= sc.Mapped(fileName)
    ensures AtomSane(sc, Substring(s))
  {
    hide Tokens, Flat, Tokenize, Bytes, ValidUtf8, SelfContained, SlicesInside;
    NonemptyPattern(s.pattern);
    ValidIsSelfContained(s.pattern);
    forall fileName: bool ensures SuitedTo(sc, s, fileName) {
      RoomAfterSuffices(sc.src.Files(fileName), sc.Mapped(fileName), s.pattern);
    }
  }

  // ----- after simplification -----

  /** An atom that can be left after simplification. */
  ghost function Left(sc: Scope): Q -> bool {
    (a: Q) => AtomSane(sc, a) && !a.Repo? && !a.RepoSet? && !Vacuous(a)
  }

  lemma {:induction false} CleanAtoms(q: Q, p: Q -> bool)
    requires Clean(q) && AllAtoms(q, p)
    ensures AllAtoms(q, (a: Q) => p(a) && !Vacuous(a))
    decreases q
  {
    match q
    case And(cs) => forall i | 0 <= i < |cs| ensures AllAtoms(cs[i], (a: Q) => p(a) && !Vacuous(a)) { CleanAtoms(cs[i], p); }
    case Or(cs) => forall i | 0 <= i < |cs| ensures AllAtoms(cs[i], (a: Q) => p(a) && !Vacuous(a)) { CleanAtoms(cs[i], p); }
    case Not(c) => CleanAtoms(c, p);
    case _ =>
  }

  lemma SimplifiedLeaves(sh: Shard, src: Source, q: Q)
    requires AllAtoms(ShardSimplify(sh, q), Sane(ScopeOf(sh, src)))
    ensures AllAtoms(ShardSimplify(sh, q), Left(ScopeOf(sh, src)))
  {
    hide AtomSane, Simplified;
    var s, sane, noRepo := ShardSimplify(sh, q), Sane(ScopeOf(sh, src)), ShardEval.Open(sh.languageMap);
    NoRepoLeft(sh.repoName, sh.languageMap, q);
    AtomsAnd(s, sane, noRepo);
    var p := (a: Q) => sane(a) && noRepo(a);
    SimplifyNormal(Map(q, OnRepo(sh.repoName, sh.languageMap)));
    if !s.Const? {
      NormalIsFlat(s);
      CleanAtoms(s, p);
      AtomsImply(s, (a: Q) => p(a) && !Vacuous(a), Left(ScopeOf(sh, src)));
    }
  }

  // ----- after expansion -----

  lemma AtomsOnly()
    ensures OnAtoms((a: Q) => ExpandFileContent(a))
  {
  }

  lemma ExpandedAtomFits(sh: Shard, src: Source, a: Q)
    requires a.IsAtom() && Left(ScopeOf(sh, src))(a)
    ensures AllAtoms(ExpandFileContent(a), Fitting(ScopeOf(sh, src), 1))
  {
    hide Scope.RoomFor, Comparable, Compiles, LiteralsFit, RQ.Distils;
    var e := ExpandFileContent(a);
    if e.Or? {
      assert AllAtoms(e.children[0], Fitting(ScopeOf(sh, src), 1)) && AllAtoms(e.children[1], Fitting(ScopeOf(sh, src), 1));
    }
  }

  lemma ExpandedFits(sh: Shard, src: Source, q: Q)
    requires AllAtoms(q, Left(ScopeOf(sh, src)))
    ensures AllAtoms(Expanded(q), Fitting(ScopeOf(sh, src), 1))
  {
    hide AtomSane, AtomFits, ExpandFileContent;
    var f := (a: Q) => ExpandFileContent(a);
    var fits := (a: Q) => AllAtoms(f(a), Fitting(ScopeOf(sh, src), 1));
    forall a: Q | a.IsAtom() && Left(ScopeOf(sh, src))(a) ensures fits(a) {
      ExpandedAtomFits(sh, src, a);
    }
    AtomsImply(q, Left(ScopeOf(sh, src)), fits);
    AtomsOnly();
    MapAtoms(q, f, Fitting(ScopeOf(sh, src), 1));
  }

  lemma ExpandedPair(a: Q)
    requires a.Substring? || a.Regex?
    ensures AllAtoms(ExpandFileContent(a), Long())
  {
    var e := ExpandFileContent(a);
    if e.Or? {
      assert AllAtoms(e.children[0], Long()) && AllAtoms(e.children[1], Long());
    }
  }

  lemma {:induction false} ExpandedLong(q: Q)
    ensures AllAtoms(Expanded(q), Long()) <==> AllAtoms(q, Long())
    decreases q
  {
    hide Tokens;
    var f := (a: Q) => ExpandFileContent(a);
    match q
    case And(cs) =>
      forall i | 0 <= i < |cs| ensures AllAtoms(MapList(cs, f)[i], Long()) <==> AllAtoms(cs[i], Long()) { ExpandedLong(cs[i]); }
    case Or(cs) =>
      forall i | 0 <= i < |cs| ensures AllAtoms(MapList(cs, f)[i], Long()) <==> AllAtoms(cs[i], Long()) { ExpandedLong(cs[i]); }
    case Not(c) => ExpandedLong(c);
    case Substring(_) => ExpandedPair(q);
    case Regex(_, _, _, _) => ExpandedPair(q);
    case _ =>
  }

  /** What the builder makes of a pattern is what the pattern means. */
  lemma SubstringMeaning(sh: Shard, src: Source, other: OtherOps, d: nat, s: SubstringQ)
    requires IndexOf(sh, src, other) && d < |src.contents| && Compiles(s.pattern) && SuitedTo(ScopeOf(sh, src), s, s.fileName)
    ensures BuiltHolds(sh, src, d, Substring(s)) <==> NeedleOf(sh, s).FoundIn(src.Files(s.fileName)[d])
  {
    hide IndexOf, IndexFinds, Needle.FoundIn, Compiles, Comparable, Scope.RoomFor;
    CountFacts(sh, src, other);
    FileFacts(sh, src, other, s.fileName, d);
    FindsIffContains(sh, s, src.Files(s.fileName), d, other);
  }

  lemma SymbolMeaning(sh: Shard, src: Source, other: OtherOps, d: nat, s: SubstringQ)
    requires IndexOf(sh, src, other) && d < |src.contents| && !s.fileName && !ShortSymbol(Symbol(s)) && SuitedTo(ScopeOf(sh, src), s, false)
    ensures BuiltHolds(sh, src, d, Symbol(s)) <==> AtomHolds(sh, src, d, Symbol(s))
  {
    hide IndexOf, OfferedIn, Needle.MatchAt, Comparable, Scope.RoomFor, InSymbol, Tokens;
    CountFacts(sh, src, other);
    FileFacts(sh, src, other, false, d);
    forall r | NeedleOf(sh, s).MatchAt(src.contents[d], r) ensures OfferedIn(sh, s, src.contents[d], r) {
      MatchIsOffered(sh, s, src.contents, d, r);
    }
  }

  /** Which texts a pattern searches does not change how it compares. */
  lemma SameNeedle(sh: Shard, src: Source, s: SubstringQ, s': SubstringQ, fileName: bool)
    requires s.pattern == s'.pattern && s.caseSensitive == s'.caseSensitive
    ensures NeedleOf(sh, s) == NeedleOf(sh, s') && SuitedTo(ScopeOf(sh, src), s, fileName) == SuitedTo(ScopeOf(sh, src), s', fileName)
  {
  }

  lemma ExpandedSubstring(sh: Shard, src: Source, other: OtherOps, d: nat, s: SubstringQ)
    requires IndexOf(sh, src, other) && d < |src.contents| && AtomSane(ScopeOf(sh, src), Substring(s))
    ensures Holds(ExpandFileContent(Substring(s)), Built(sh, src, d)) == AtomHolds(sh, src, d, Substring(s))
  {
    hide IndexOf, Needle.FoundIn, SuitedTo, Compiles, BuiltHolds, NeedleOf;
    CountFacts(sh, src, other);
    var e, env := ExpandFileContent(Substring(s)), Built(sh, src, d);
    if e.Or? {
      var name, content := s.(fileName := true), s.(content := true);
      SameNeedle(sh, src, s, name, true);
      SameNeedle(sh, src, s, content, false);
      SubstringMeaning(sh, src, other, d, name);
      SubstringMeaning(sh, src, other, d, content);
      assert e.children == [Substring(name), Substring(content)];
      assert AnyHolds(e.children, env) <==> Holds(e.children[0], env) || Holds(e.children[1], env);
    } else {
      SubstringMeaning(sh, src, other, d, s);
    }
  }

  lemma ExpandedAtom(sh: Shard, src: Source, other: OtherOps, d: nat, a: Q)
    requires IndexOf(sh, src, other) && d < |src.contents|
    requires a.IsAtom() && Left(ScopeOf(sh, src))(a) && !ShortSymbol(a)
    ensures Holds(ExpandFileContent(a), Built(sh, src, d)) == AtomHolds(sh, src, d, a)
  {
    hide IndexOf, Needle.FoundIn, InBranch, SymbolFound, IndexFinds, IndexFindsSymbol, SuitedTo, Compiles, ShortSymbol, RQ.Distils;
    CountFacts(sh, src, other);
    if a.Substring? {
      ExpandedSubstring(sh, src, other, d, a.sub);
    } else if a.Symbol? {
      SymbolMeaning(sh, src, other, d, a.sub);
    } else if a.Regex? && !a.fileName && !a.content {
      var e, env := ExpandFileContent(a), Built(sh, src, d);
      assert AnyHolds(e.children, env) <==> Holds(e.children[0], env) || Holds(e.children[1], env);
    }
  }

  lemma ExpandedMeaning(sh: Shard, src: Source, other: OtherOps, d: nat, q: Q)
    requires IndexOf(sh, src, other) && d < |src.contents|
    requires AllAtoms(q, Left(ScopeOf(sh, src))) && AllAtoms(q, Long())
    ensures Holds(Expanded(q), Built(sh, src, d)) == Holds(q, On(sh, src, d))
  {
    hide IndexOf, AtomSane, Built, AtomHolds, ExpandFileContent, ShortSymbol;
    var env, env' := Built(sh, src, d), On(sh, src, d);
    var f := (a: Q) => ExpandFileContent(a);
    var both, same := (a: Q) => Left(ScopeOf(sh, src))(a) && Long()(a), (a: Q) => Holds(f(a), env) == env'(a);
    AtomsAnd(q, Left(ScopeOf(sh, src)), Long());
    forall a: Q | a.IsAtom() && both(a) ensures same(a) {
      ExpandedAtom(sh, src, other, d, a);
    }
    AtomsImply(q, both, same);
    AtomsOnly();
    MapMeaning(q, f, env, env');
  }

  lemma {:induction false} AtomsAnd(q: Q, p: Q -> bool, p': Q -> bool)
    requires AllAtoms(q, p) && AllAtoms(q, p')
    ensures AllAtoms(q, (a: Q) => p(a) && p'(a))
    decreases q
  {
    match q
    case And(cs) => forall i | 0 <= i < |cs| ensures AllAtoms(cs[i], (a: Q) => p(a) && p'(a)) { AtomsAnd(cs[i], p, p'); }
    case Or(cs) => forall i | 0 <= i < |cs| ensures AllAtoms(cs[i], (a: Q) => p(a) && p'(a)) { AtomsAnd(cs[i], p, p'); }
    case Not(c) => AtomsAnd(c, p, p');
    case _ =>
  }

  // ----- what is shown -----

  /** A match of the pattern in a text; short patterns have those the engine reports. */
  ghost predicate PatternMatch(sh: Shard, s: SubstringQ, text: seq<byte>, m: Match) {
    if |Tokens(s.pattern)| < 3 then SpanOf(sh.find(Literal(Runes(s.pattern), false), s.caseSensitive, text), m)
    else exists r :: MatchFrom(sh, s, text, r, m)
  }

  /** Names or contents are searched, as the flags of an atom say. */
  predicate Looks(inName: bool, fileName: bool, content: bool) {
    if inName then fileName || !content else !fileName
  }

  /** A match of one atom in document `d`, by looking at the documents only. */
  ghost predicate AtomMatch(sh: Shard, src: Source, d: nat, a: Q, m: Match) {
    d < |src.contents| && d < |src.names| &&
    match a
    case Substring(s) => Looks(m.fileName, s.fileName, s.content) && PatternMatch(sh, s, src.Files(m.fileName)[d], m)
    case Regex(re, cs, fileName, content) => Looks(m.fileName, fileName, content) && SpanOf(sh.find(re, cs, src.Files(m.fileName)[d]), m)
    case Symbol(s) =>
      !m.fileName && exists r :: MatchFrom(sh, s, src.contents[d], r, m) && InSymbol(src, d, r, |Tokens(s.pattern)|)
    case _ => false
  }

  /** A match that counts: of an atom that holds together with all the and/or above it, and not below a not. */
  ghost predicate Counts(sh: Shard, src: Source, d: nat, q: Q, m: Match)
    decreases q, 1
  {
    match q
    case And(cs) => AnyCounts(sh, src, d, cs, m)
    case Or(cs) => AnyCounts(sh, src, d, cs, m)
    case Not(_) => false
    case Const(_) => false
    case _ => AtomMatch(sh, src, d, q, m)
  }

  ghost predicate AnyCounts(sh: Shard, src: Source, d: nat, cs: seq<Q>, m: Match)
    decreases cs, 0
  {
    exists i :: 0 <= i < |cs| && Holds(cs[i], On(sh, src, d)) && Counts(sh, src, d, cs[i], m)
  }

  ghost function Counting(sh: Shard, src: Source, d: nat, q: Q): Match -> bool {
    (m: Match) => Counts(sh, src, d, q, m)
  }

  /** What the index shows of a comparable pattern are its matches. */
  lemma ShowsIffMatch(sh: Shard, s: SubstringQ, files: seq<seq<byte>>, d: nat, m: Match)
    requires sh.Index(s.fileName).postings.Holds(Tokenize(files)) && d < |files| && Comparable(sh.tables, s, files)
    ensures IndexShows(sh, s, files[d], m) <==> PatternMatch(sh, s, files[d], m)
  {
    hide Needle.MatchAt, Needle.MatchSize, Offset, OfferedIn, PostingTable.Holds, Comparable, Tokens, SpanOf;
    if |Tokens(s.pattern)| >= 3 {
      forall r | MatchFrom(sh, s, files[d], r, m) ensures OfferedIn(sh, s, files[d], r) {
        MatchIsOffered(sh, s, files, d, r);
      }
    }
  }

  lemma SubstringShows(sh: Shard, src: Source, other: OtherOps, d: nat, s: SubstringQ, m: Match)
    requires IndexOf(sh, src, other) && d < |src.contents| && SuitedTo(ScopeOf(sh, src), s, s.fileName)
    ensures AtomShows(sh, src, d, Substring(s), m) <==> m.fileName == s.fileName && PatternMatch(sh, s, src.Files(s.fileName)[d], m)
  {
    hide IndexOf, IndexShows, PatternMatch, Comparable, Scope.RoomFor;
    CountFacts(sh, src, other);
    FileFacts(sh, src, other, s.fileName, d);
    ShowsIffMatch(sh, s, src.Files(s.fileName), d, m);
  }

  lemma SymbolShows(sh: Shard, src: Source, other: OtherOps, d: nat, s: SubstringQ, m: Match)
    requires IndexOf(sh, src, other) && d < |src.contents| && !s.fileName && !ShortSymbol(Symbol(s)) && SuitedTo(ScopeOf(sh, src), s, false)
    ensures AtomShows(sh, src, d, Symbol(s), m) <==> AtomMatch(sh, src, d, Symbol(s), m)
  {
    hide IndexOf, OfferedIn, Needle.MatchAt, Needle.MatchSize, Offset, Comparable, Scope.RoomFor, InSymbol, Tokens;
    CountFacts(sh, src, other);
    FileFacts(sh, src, other, false, d);
    forall r | MatchFrom(sh, s, src.contents[d], r, m) ensures OfferedIn(sh, s, src.contents[d], r) {
      MatchIsOffered(sh, s, src.contents, d, r);
    }
  }

  /** A match of an atom makes it hold. */
  lemma ShownHolds(sh: Shard, src: Source, d: nat, a: Q, m: Match)
    requires (a.Substring? || a.Regex?) && AtomShows(sh, src, d, a, m)
    ensures Holds(a, Built(sh, src, d))
  {
    hide OfferedIn, Tokens, Needle.MatchAt, Needle.MatchSize, Offset;
  }

  /** The two halves of an atom without a flag. */
  lemma EitherShows(sh: Shard, src: Source, d: nat, a: Q, b: Q, m: Match)
    requires (a.Substring? || a.Regex?) && (b.Substring? || b.Regex?)
    ensures QueryShows(sh, src, d, Or([a, b]), m) <==> AtomShows(sh, src, d, a, m) || AtomShows(sh, src, d, b, m)
  {
    hide AtomShows, Built;
    var cs := [a, b];
    AtomShown(sh, src, a);
    AtomShown(sh, src, b);
    if AtomShows(sh, src, d, a, m) {
      ShownHolds(sh, src, d, a, m);
      assert Holds(cs[0], Built(sh, src, d)) && QueryShows(sh, src, d, cs[0], m);
    }
    if AtomShows(sh, src, d, b, m) {
      ShownHolds(sh, src, d, b, m);
      assert Holds(cs[1], Built(sh, src, d)) && QueryShows(sh, src, d, cs[1], m);
    }
  }

  lemma ExpandedSubstringShows(sh: Shard, src: Source, other: OtherOps, d: nat, s: SubstringQ, m: Match)
    requires IndexOf(sh, src, other) && d < |src.contents| && AtomSane(ScopeOf(sh, src), Substring(s))
    ensures QueryShows(sh, src, d, ExpandFileContent(Substring(s)), m) <==> AtomMatch(sh, src, d, Substring(s), m)
  {
    hide IndexOf, SuitedTo, Compiles, PatternMatch, AtomShows, NeedleOf;
    CountFacts(sh, src, other);
    if !s.fileName && !s.content {
      var name, content := s.(fileName := true), s.(content := true);
      SameNeedle(sh, src, s, name, true);
      SameNeedle(sh, src, s, content, false);
      SubstringShows(sh, src, other, d, name, m);
      SubstringShows(sh, src, other, d, content, m);
      SamePattern(sh, s, name, src.names[d], m);
      SamePattern(sh, s, content, src.contents[d], m);
      EitherShows(sh, src, d, Substring(name), Substring(content), m);
    } else {
      SubstringShows(sh, src, other, d, s, m);
      AtomShown(sh, src, Substring(s));
    }
  }

  lemma SamePattern(sh: Shard, s: SubstringQ, s': SubstringQ, text: seq<byte>, m: Match)
    requires s.pattern == s'.pattern && s.caseSensitive == s'.caseSensitive
    ensures PatternMatch(sh, s, text, m) == PatternMatch(sh, s', text, m)
  {
    assert NeedleOf(sh, s) == NeedleOf(sh, s');
    hide Needle.MatchAt, Needle.MatchSize, Offset, Tokens, SpanOf;
    forall r ensures MatchFrom(sh, s, text, r, m) == MatchFrom(sh, s', text, r, m) {
    }
  }

  lemma ExpandedAtomShows(sh: Shard, src: Source, other: OtherOps, d: nat, a: Q, m: Match)
    requires IndexOf(sh, src, other) && d < |src.contents|
    requires a.IsAtom() && Left(ScopeOf(sh, src))(a) && !ShortSymbol(a)
    ensures QueryShows(sh, src, d, ExpandFileContent(a), m) <==> AtomMatch(sh, src, d, a, m)
  {
    hide IndexOf, SuitedTo, Compiles, ShortSymbol, RQ.Distils, SpanOf, PatternMatch, IndexShows, IndexShowsSymbol;
    CountFacts(sh, src, other);
    AtomShown(sh, src, a);
    if a.Substring? {
      ExpandedSubstringShows(sh, src, other, d, a.sub, m);
    } else if a.Symbol? {
      SymbolShows(sh, src, other, d, a.sub, m);
    } else if a.Regex? && !a.fileName && !a.content {
      EitherShows(sh, src, d, Regex(a.re, a.caseSensitive, true, false), Regex(a.re, a.caseSensitive, false, true), m);
    }
  }

  /** What the expanded query shows is what counts for the query. */
  lemma {:induction false} ExpandedShows(sh: Shard, src: Source, other: OtherOps, d: nat, q: Q, m: Match)
    requires IndexOf(sh, src, other) && d < |src.contents|
    requires AllAtoms(q, Left(ScopeOf(sh, src))) && AllAtoms(q, Long())
    ensures QueryShows(sh, src, d, Expanded(q), m) <==> Counts(sh, src, d, q, m)
    decreases q, 1
  {
    hide IndexOf, Left, Long, Built, On, AtomShows, AtomMatch, ExpandFileContent;
    AtomsOnly();
    var f := (a: Q) => ExpandFileContent(a);
    if q.And? {
      ExpandedShowsList(sh, src, other, d, q.children, m);
      assert f(And(MapList(q.children, f))) == And(MapList(q.children, f));
    } else if q.Or? {
      ExpandedShowsList(sh, src, other, d, q.children, m);
      assert f(Or(MapList(q.children, f))) == Or(MapList(q.children, f));
    } else if q.Not? {
      assert f(Not(Map(q.child, f))) == Not(Map(q.child, f));
    } else if q.Const? {
      assert f(q) == q;
    } else {
      LeftLong(sh, src, q);
      ExpandedAtomShows(sh, src, other, d, q, m);
    }
  }

  lemma LeftLong(sh: Shard, src: Source, q: Q)
    requires q.IsAtom() && AllAtoms(q, Left(ScopeOf(sh, src))) && AllAtoms(q, Long())
    ensures Left(ScopeOf(sh, src))(q) && !ShortSymbol(q)
  {
    hide Left, ShortSymbol;
  }

  lemma {:induction false} ExpandedShowsList(sh: Shard, src: Source, other: OtherOps, d: nat, cs: seq<Q>, m: Match)
    requires IndexOf(sh, src, other) && d < |src.contents|
    requires EachAtoms(cs, Left(ScopeOf(sh, src))) && EachAtoms(cs, Long())
    ensures AnyShows(sh, src, d, MapList(cs, (a: Q) => ExpandFileContent(a)), m) <==> AnyCounts(sh, src, d, cs, m)
    decreases cs, 0
  {
    hide IndexOf, Left, Long, Built, On, Holds, QueryShows, Counts, AllAtoms;
    var f := (a: Q) => ExpandFileContent(a);
    var es, env, env' := MapList(cs, f), Built(sh, src, d), On(sh, src, d);
    forall i | 0 <= i < |cs|
      ensures Holds(es[i], env) == Holds(cs[i], env') && (QueryShows(sh, src, d, es[i], m) <==> Counts(sh, src, d, cs[i], m))
    {
      ExpandedMeaning(sh, src, other, d, cs[i]);
      ExpandedShows(sh, src, other, d, cs[i], m);
    }
  }

  // ----- the matches lie in their texts -----

  lemma AtomShownInside(sh: Shard, src: Source, other: OtherOps, d: nat, a: Q, m: Match)
    requires IndexOf(sh, src, other) && d < |src.contents| == |src.names| && AtomShows(sh, src, d, a, m)
    ensures 0 <= m.start && 0 <= m.size && m.start + m.size <= |src.Files(m.fileName)[d]|
  {
    hide IndexOf, OfferedIn, Tokens, InSymbol, MatchFrom, EngineOk;
    assert EngineOk(sh, other) by { FileFacts(sh, src, other, false, d); }
    match a
    case Substring(s) =>
      var text := src.Files(s.fileName)[d];
      if |Tokens(s.pattern)| < 3 {
        SpanInside(sh, Literal(Runes(s.pattern), false), s.caseSensitive, text, other, m);
      } else {
        var r :| OfferedIn(sh, s, text, r) && MatchFrom(sh, s, text, r, m);
        FromInside(sh, s, text, r, m);
      }
    case Regex(re, cs, fileName, _) => SpanInside(sh, re, cs, src.Files(fileName)[d], other, m);
    case Symbol(s) =>
      var r :| OfferedIn(sh, s, src.contents[d], r) && MatchFrom(sh, s, src.contents[d], r, m) && InSymbol(src, d, r, |Tokens(s.pattern)|);
      FromInside(sh, s, src.contents[d], r, m);
  }

  lemma SpanInside(sh: Shard, re: Regexp, cs: bool, text: seq<byte>, other: OtherOps, m: Match)
    requires EngineOk(sh, other) && SpanOf(sh.find(re, cs, text), m)
    ensures 0 <= m.start && 0 <= m.size && m.start + m.size <= |text|
  {
    hide EngineOk;
    FoundInside(sh, re, cs, text, other);
  }

  lemma FromInside(sh: Shard, s: SubstringQ, text: seq<byte>, r: int, m: Match)
    requires MatchFrom(sh, s, text, r, m)
    ensures 0 <= m.start && 0 <= m.size && m.start + m.size <= |text|
  {
    hide Tokens;
    OffsetInside(text, r, |Tokens(s.pattern)|);
  }

  lemma {:induction false} QueryShownInside(sh: Shard, src: Source, other: OtherOps, d: nat, q: Q, m: Match)
    requires IndexOf(sh, src, other) && d < |src.contents| == |src.names| && QueryShows(sh, src, d, q, m)
    ensures 0 <= m.start && 0 <= m.size && m.start + m.size <= |src.Files(m.fileName)[d]|
    decreases q
  {
    hide IndexOf, AtomShows, Built;
    if q.And? || q.Or? {
      var i :| 0 <= i < |q.children| && Holds(q.children[i], Built(sh, src, d)) && QueryShows(sh, src, d, q.children[i], m);
      QueryShownInside(sh, src, other, d, q.children[i], m);
    } else {
      AtomShownInside(sh, src, other, d, q, m);
    }
  }

  /** The texts of the documents, as the shard has them. */
  function ProviderOf(sh: Shard): Provider {
    Provider((d: nat) => sh.names.Text(d), (d: nat) => sh.contents.Text(d), (d: nat) => if d < |sh.newlines| then sh.newlines[d] else [])
  }

  lemma ProviderIs(sh: Shard, src: Source, other: OtherOps, d: nat)
    requires IndexOf(sh, src, other) && d < |src.contents| == |src.names|
    ensures ProviderOf(sh).name(d) == src.names[d] && ProviderOf(sh).data(d) == src.contents[d]
    ensures |src.names[d]| <= MaxU32 && |src.contents[d]| <= MaxU32
    ensures L.AreNewlines(ProviderOf(sh).newlines(d), src.contents[d])
  {
    hide SectionsConverted, CaseTables.Ok, EngineOk, TextIndex.Indexes, TextIndex.Text, L.AreNewlines;
    TextIsFile(sh.names, src.names, sh.plainASCII, d);
    TextIsFile(sh.contents, src.contents, sh.plainASCII, d);
  }

  lemma ProviderProvides(sh: Shard, src: Source, other: OtherOps, t: T.Tree, q: Q)
    requires IndexOf(sh, src, other) && |src.contents| == |src.names| && ShowsSame(t, q, sh, src)
    ensures Provides(ProviderOf(sh), t, |src.contents|)
  {
    hide IndexOf, ProviderOf, TreeShows, QueryShows, L.AreNewlines;
    forall d | 0 <= d < |src.contents|
      ensures ShownInside(Shown(t, d), src.names[d], src.contents[d])
      ensures ProviderOf(sh).name(d) == src.names[d] && ProviderOf(sh).data(d) == src.contents[d]
      ensures |src.names[d]| <= MaxU32 && |src.contents[d]| <= MaxU32 && L.AreNewlines(ProviderOf(sh).newlines(d), src.contents[d])
    {
      ProviderIs(sh, src, other, d);
      forall m | TreeShows(t, d, m)
        ensures 0 <= m.start && 0 <= m.size && m.start + m.size <= |if m.fileName then src.names[d] else src.contents[d]|
      {
        QueryShownInside(sh, src, other, d, q, m);
      }
    }
  }

  // ----- the search -----

  /** The list has, in order, exactly the documents before `cutoff` on which the query holds. */
  ghost predicate Answers(found: seq<u32>, q: Q, sh: Shard, src: Source, cutoff: int) {
    && Increasing(found)
    && forall d: int :: d in found <==> 0 <= d < cutoff && Holds(q, On(sh, src, d))
  }

  /** The lines of every file show, merged, the matches that count for the simplified query. */
  ghost predicate ShowsAll(files: seq<FileMatch>, q: Q, sh: Shard, src: Source) {
    forall i :: 0 <= i < |files| ==>
      && files[i].doc < |src.contents| && files[i].doc < |src.names|
      && IsShown(files[i].lines, Counting(sh, src, files[i].doc, ShardSimplify(sh, q)), src.names[files[i].doc], src.contents[files[i].doc])
  }

  /**
   * How far the search got: a shard that is empty or cannot match is done with at once; in any other the documents are
   * looked at where the tree of the query jumps to, until the search is halted or at the end.
   */
  ghost predicate Ran(files: seq<FileMatch>, cutoff: int, looked: seq<u32>, t: T.Tree, q: Q, sh: Shard, src: Source,
                      stop: nat -> bool, limit: int)
  {
    if src.contents == [] || ShardSimplify(sh, q) == Const(false) then files == [] && cutoff == |src.contents|
    else
      && Means(t, Expanded(ShardSimplify(sh, q)), sh, src)
      && Visits(t, looked, files, stop, limit) && EndsAt(t, looked, files, cutoff, |src.contents|, stop, limit)
  }

  /**
   * Search. `stop` is cancellation and the limit of important matches, `limit` that of lines. The only error is a
   * symbol search for fewer than three runes that simplification has left in the query; an empty shard is answered
   * before that is looked at. Only what simplification leaves has to be suited to the documents.
   */
  method Search(sh: Shard, q: Q, stop: nat -> bool, limit: int, ghost src: Source, ghost other: OtherOps)
    returns (r: Result<seq<FileMatch>>, cutoff: nat, ghost looked: seq<u32>, ghost t: T.Tree)
    requires IndexOf(sh, src, other) && AllAtoms(ShardSimplify(sh, q), Sane(ScopeOf(sh, src)))
    ensures r.Ok? <==> src.contents == [] || AllAtoms(ShardSimplify(sh, q), Long())
    ensures r.Ok? ==> cutoff <= |src.contents| && Answers(DocsOf(r.value), q, sh, src, cutoff) && ShowsAll(r.value, q, sh, src)
    ensures r.Ok? ==> Ran(r.value, cutoff, looked, t, q, sh, src, stop, limit)
    ensures r.Ok? && (forall turn :: !stop(turn)) && LineCount(r.value) < limit ==> cutoff == |src.contents|
  {
    hide IndexOf, ShardSimplify, Built, On, AllAtoms, Holds, ProviderOf, Provides, AllShown, ShowsSame, Visits, EndsAt, Means, LineCount;
    looked, t := [], T.Leaf(0, A.Never);
    CountFacts(sh, src, other);
    EmptyIff(sh, src, other);
    if |sh.names.table.bounds| == 0 {
      assert DocsOf([]) == [];
      return Ok([]), 0, looked, t;
    }
    var s := SimplifyOnShard(sh, q);
    SimplifiedLeaves(sh, src, q);
    if s == Const(false) {
      NoAnswers(sh, src, other, q);
      return Ok([]), |sh.branchMasks|, looked, t;
    }
    var e := Expanded(s);
    ExpandedFits(sh, src, s);
    ExpandedLong(s);
    var rt, _ := NewMatchTree(sh, e, 0, 1, src, other);
    if rt.Err? {
      return Err(rt.reason), 0, looked, t;
    }
    ProviderProvides(sh, src, other, rt.value, e);
    t := rt.value;
    var files, c;
    files, c, looked := SearchLoop.Search(rt.value, |sh.branchMasks|, stop, limit, ProviderOf(sh));
    TreeAnswers(sh, src, other, q, rt.value, DocsOf(files), c);
    TreeShowsAll(sh, src, other, q, rt.value, files, c);
    return Ok(files), c, looked, t;
  }

  lemma EmptyIff(sh: Shard, src: Source, other: OtherOps)
    requires IndexOf(sh, src, other)
    ensures |sh.names.table.bounds| == 0 <==> src.contents == []
  {
    hide EngineOk, SectionsConverted, NewlinesKnown, CaseTables.Ok, FrequenciesFit, PostingTable.Holds, WindowsFit, AllClosed;
  }

  lemma NoAnswers(sh: Shard, src: Source, other: OtherOps, q: Q)
    requires IndexOf(sh, src, other) && ShardSimplify(sh, q) == Const(false)
    ensures Answers(DocsOf([]), q, sh, src, |src.contents|) && AllAtoms(Const(false), Long())
  {
    hide IndexOf, ShardSimplify, On;
    assert DocsOf([]) == [];
    forall d: nat | d < |src.contents| ensures !Holds(q, On(sh, src, d)) {
      IndexEvaluable(sh, src, other);
      ShardSimplifyMeaning(sh, src, d, other, q);
    }
  }

  lemma TreeAnswers(sh: Shard, src: Source, other: OtherOps, q: Q, t: T.Tree, found: seq<u32>, cutoff: nat)
    requires IndexOf(sh, src, other) && AllAtoms(ShardSimplify(sh, q), Sane(ScopeOf(sh, src)))
    requires AllAtoms(ShardSimplify(sh, q), Long()) && Means(t, Expanded(ShardSimplify(sh, q)), sh, src)
    requires cutoff <= |src.contents| && FoundBelow(found, t, cutoff)
    ensures Answers(found, q, sh, src, cutoff)
  {
    hide IndexOf, ShardSimplify, Built, On, AllAtoms, Holds, T.Tree.Sat;
    CountFacts(sh, src, other);
    SimplifiedLeaves(sh, src, q);
    forall d: nat | d < cutoff ensures t.Sat(d) <==> Holds(q, On(sh, src, d)) {
      IndexEvaluable(sh, src, other);
      ShardSimplifyMeaning(sh, src, d, other, q);
      ExpandedMeaning(sh, src, other, d, ShardSimplify(sh, q));
    }
  }

  lemma TreeShowsAll(sh: Shard, src: Source, other: OtherOps, q: Q, t: T.Tree, files: seq<FileMatch>, cutoff: nat)
    requires IndexOf(sh, src, other) && AllAtoms(ShardSimplify(sh, q), Sane(ScopeOf(sh, src))) && |src.contents| == |src.names|
    requires AllAtoms(ShardSimplify(sh, q), Long()) && ShowsSame(t, Expanded(ShardSimplify(sh, q)), sh, src)
    requires cutoff <= |src.contents| && FoundBelow(DocsOf(files), t, cutoff) && AllShown(files, t, ProviderOf(sh))
    ensures ShowsAll(files, q, sh, src)
  {
    hide IndexOf, ShardSimplify, AllAtoms, IsShown, Counts, QueryShows, TreeShows, ProviderOf, Expanded, T.Tree.Sat;
    SimplifiedLeaves(sh, src, q);
    var s := ShardSimplify(sh, q);
    forall i | 0 <= i < |files|
      ensures files[i].doc < |src.contents|
      ensures IsShown(files[i].lines, Counting(sh, src, files[i].doc, s), src.names[files[i].doc], src.contents[files[i].doc])
    {
      var d := files[i].doc;
      assert DocsOf(files)[i] in DocsOf(files);
      ProviderIs(sh, src, other, d);
      forall m ensures Shown(t, d)(m) <==> Counting(sh, src, d, s)(m) {
        ExpandedShows(sh, src, other, d, s, m);
      }
      SameShown(files[i].lines, Shown(t, d), Counting(sh, src, d, s), src.names[d], src.contents[d]);
    }
  }
}
