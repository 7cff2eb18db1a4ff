/** From a query to its match tree (newMatchTree, matchtree.go:494-637). */
module QueryTree {
  import opened Machine
  import opened Utf8
  import opened Corpus
  import opened Query
  import opened Simplify
  import opened QueryMap
  import opened TrigramLookup
  import opened NgramSearch
  import opened CaseFolding
  import opened ContentMatch
  import opened ShardIndex
  import opened ShardEval
  import opened SubstringMatching
  import opened TreeBuilder
  import opened DocumentMatches
  import opened SearchLoop
  import RQ = RegexpQuery
  import A = MatchAtoms
  import T = MatchTree

  type OtherOps = RQ.OtherOps

  // ----- what the builder asks of the atoms -----

  /**
   * A distilled literal that the substring search finds wherever the engine sees it: up to case its fold cycles stay in
   * lower case in these texts, exactly it is legible in them, and case does not matter for it alone.
   */
  ghost predicate LiteralFits(sc: Scope, fileName: bool, cs: bool, rs: seq<Rune>, fold: bool) {
    var files := sc.src.Files(fileName);
    && Scalars(rs) && sc.RoomFor(fileName, cs, EncodeAll(rs))
    && (cs && fold ==> FoldsExactIn(sc.tables, rs, files))
    && (|rs| >= 3 ==> if cs then LegibleIn(EncodeAll(rs), files) else FoldsLowerIn(sc.tables, rs, files))
  }

  ghost function LiteralsFit(sc: Scope, fileName: bool, cs: bool): (seq<Rune>, bool) -> bool {
    (rs: seq<Rune>, fold: bool) => LiteralFits(sc, fileName, cs, rs, fold)
  }

  /** Patterns compile and are of a sane size; repository atoms have been evaluated; regexps only at level 1. */
  ghost predicate AtomFits(sc: Scope, level: nat, a: Q) {
    match a
    case Substring(s) => Compiles(s.pattern) && sc.RoomFor(s.fileName, s.caseSensitive, s.pattern)
    case Symbol(s) => !s.fileName && Compiles(s.pattern) && sc.RoomFor(false, s.caseSensitive, s.pattern)
    case Regex(re, cs, fileName, _) => level >= 1 && RQ.Distils(re, 3, LiteralsFit(sc, fileName, cs))
    case Repo(_) => false
    case RepoSet(_) => false
    case _ => true
  }

  /** Symbol searches need three runes (matchtree.go:597-599). */
  ghost predicate ShortSymbol(a: Q) {
    a.Symbol? && |Tokens(a.sub.pattern)| < 3
  }

  /** What the builder makes of atoms: for patterns what the index finds, and without a flag in the contents. */
  ghost predicate BuiltHolds(sh: Shard, src: Source, d: nat, a: Q) {
    d < |src.contents| && d < |src.names| &&
    match a
    case Substring(s) => IndexFinds(sh, s, src.Files(s.fileName)[d])
    case Regex(re, cs, fileName, _) => sh.find(re, cs, src.Files(fileName)[d]) != []
    case Symbol(s) => IndexFindsSymbol(sh, src, d, s)
    case Branch(p) => InBranch(sh, p, d)
    case Language(l) => l in sh.languageMap && d < |sh.languages| && sh.languages[d] == sh.languageMap[l]
    case _ => AtomHolds(sh, src, d, a)
  }

  ghost function Built(sh: Shard, src: Source, d: nat): Q -> bool {
    (a: Q) => BuiltHolds(sh, src, d, a)
  }

  lemma AtomBuilt(sh: Shard, src: Source, a: Q)
    requires a.IsAtom()
    ensures forall d :: Holds(a, Built(sh, src, d)) == BuiltHolds(sh, src, d, a)
  {
    hide BuiltHolds;
  }

  // ----- what is shown -----

  /** The matches of one atom in document `d`. */
  ghost predicate AtomShows(sh: Shard, src: Source, d: nat, a: Q, m: Match) {
    d < |src.contents| && d < |src.names| &&
    match a
    case Substring(s) => m.fileName == s.fileName && IndexShows(sh, s, src.Files(s.fileName)[d], m)
    case Regex(re, cs, fileName, _) => m.fileName == fileName && SpanOf(sh.find(re, cs, src.Files(fileName)[d]), m)
    case Symbol(s) => !m.fileName && IndexShowsSymbol(sh, src, d, s, m)
    case _ => false
  }

  /** The matches that count: of the atoms below and/or that hold together with all that is above them, none below not. */
  ghost predicate QueryShows(sh: Shard, src: Source, d: nat, q: Q, m: Match)
    decreases q, 1
  {
    match q
    case And(cs) => AnyShows(sh, src, d, cs, m)
    case Or(cs) => AnyShows(sh, src, d, cs, m)
    case Not(_) => false
    case Const(_) => false
    case _ => AtomShows(sh, src, d, q, m)
  }

  ghost predicate AnyShows(sh: Shard, src: Source, d: nat, cs: seq<Q>, m: Match)
    decreases cs, 0
  {
    exists i :: 0 <= i < |cs| && Holds(cs[i], Built(sh, src, d)) && QueryShows(sh, src, d, cs[i], m)
  }

  lemma AtomShown(sh: Shard, src: Source, a: Q)
    requires a.IsAtom()
    ensures forall d, m :: QueryShows(sh, src, d, a, m) == AtomShows(sh, src, d, a, m)
  {
    hide AtomShows;
  }

  lemma ShownByJoin(a: seq<A.Atom>, b: seq<A.Atom>, d: nat, m: Match)
    ensures ShownBy(a + b, d, m) <==> ShownBy(a, d, m) || ShownBy(b, d, m)
  {
    hide A.Atom.Shows;
    var c := a + b;
    if ShownBy(a, d, m) {
      var i :| 0 <= i < |a| && a[i].Shows(d, m);
      assert c[i] == a[i];
    }
    if ShownBy(b, d, m) {
      var i :| 0 <= i < |b| && b[i].Shows(d, m);
      assert c[|a| + i] == b[i];
    }
    if ShownBy(c, d, m) {
      var i :| 0 <= i < |c| && c[i].Shows(d, m);
      assert if i < |a| then c[i] == a[i] else c[i] == b[i - |a|];
    }
  }

  /** What counts below and/or is what counts for a child that matches. */
  lemma {:induction false} BelowShows(ts: seq<T.Tree>, d: nat, m: Match)
    ensures ShownBy(VisibleBelow(ts, d), d, m) <==> exists i :: 0 <= i < |ts| && ts[i].Sat(d) && TreeShows(ts[i], d, m)
  {
    hide ShownBy, Visible, T.Tree.Sat;
    if ts == [] {
      assert !ShownBy([], d, m) by { NothingBelow(d, m); }
    } else {
      var rest := ts[1..];
      BelowShows(rest, d, m);
      NothingBelow(d, m);
      ShownByJoin(if ts[0].Sat(d) then Visible(ts[0], d) else [], VisibleBelow(rest, d), d, m);
      if i :| 0 <= i < |rest| && rest[i].Sat(d) && TreeShows(rest[i], d, m) {
        assert ts[i + 1] == rest[i];
      }
      if i :| 0 <= i < |ts| && ts[i].Sat(d) && TreeShows(ts[i], d, m) {
        assert i > 0 ==> rest[i - 1] == ts[i];
      }
    }
  }

  lemma NothingBelow(d: nat, m: Match)
    ensures !ShownBy([], d, m)
  {
  }

  /** The tree shows the matches of the query. */
  ghost predicate ShowsSame(t: T.Tree, q: Q, sh: Shard, src: Source) {
    forall d, m :: 0 <= d < |src.contents| ==> (TreeShows(t, d, m) <==> QueryShows(sh, src, d, q, m))
  }

  // ----- leaves -----

  /** The branches `keys` that the pattern stands for share a bit with `m`. */
  ghost predicate AnyBranch(sh: Shard, keys: set<string>, pattern: string, m: bv64)
    requires keys <= sh.branchIDs.Keys
  {
    exists b :: b in keys && IsSubstring(pattern, b) && A.Overlaps(m, sh.branchIDs[b])
  }

  /** The branch mask: HEAD is the first branch, any other pattern all branches that contain it. */
  method BranchMask(sh: Shard, pattern: string) returns (mask: bv64)
    ensures forall m :: A.Overlaps(m, mask) <==>
              if pattern == "HEAD" then A.Overlaps(m, 1) else AnyBranch(sh, sh.branchIDs.Keys, pattern, m)
  {
    hide IsSubstring, A.Overlaps, A.Join;
    if pattern == "HEAD" {
      return 1;
    }
    mask := 0;
    var left := sh.branchIDs.Keys;
    NoOverlap();
    while left != {}
      invariant left <= sh.branchIDs.Keys
      invariant forall m :: A.Overlaps(m, mask) <==> AnyBranch(sh, sh.branchIDs.Keys - left, pattern, m)
      decreases left
    {
      var b :| b in left;
      MaskStep(sh, left, b, pattern, mask);
      if IsSubstring(pattern, b) {
        mask := A.Join(mask, sh.branchIDs[b]);
      }
      left := left - {b};
    }
  }

  lemma NoOverlap()
    ensures forall m :: !A.Overlaps(m, 0)
  {
  }

  lemma MaskStep(sh: Shard, left: set<string>, b: string, pattern: string, mask: bv64)
    requires left <= sh.branchIDs.Keys && b in left
    requires forall m :: A.Overlaps(m, mask) <==> AnyBranch(sh, sh.branchIDs.Keys - left, pattern, m)
    ensures forall m :: A.Overlaps(m, if IsSubstring(pattern, b) then A.Join(mask, sh.branchIDs[b]) else mask) <==>
              AnyBranch(sh, sh.branchIDs.Keys - (left - {b}), pattern, m)
  {
    hide IsSubstring, A.Overlaps, A.Join;
    var done, done' := sh.branchIDs.Keys - left, sh.branchIDs.Keys - (left - {b});
    assert done' == done + {b};
    forall m ensures A.Overlaps(m, if IsSubstring(pattern, b) then A.Join(mask, sh.branchIDs[b]) else mask) <==>
                     AnyBranch(sh, done', pattern, m)
    {
      A.OverlapsJoin(m, mask, sh.branchIDs[b]);
      assert A.Overlaps(m, mask) <==> AnyBranch(sh, done, pattern, m);
    }
  }

  /** The documents in one language, in order. */
  method DocsInLanguage(languages: seq<nat>, code: nat) returns (docs: seq<u32>)
    requires |languages| < MaxU32
    ensures Increasing(docs)
    ensures forall d: int :: d in docs <==> 0 <= d < |languages| && languages[d] == code
  {
    docs := [];
    for d := 0 to |languages|
      invariant Increasing(docs)
      invariant forall x: int :: x in docs <==> 0 <= x < d && languages[x] == code
    {
      if languages[d] == code {
        assert forall i :: 0 <= i < |docs| ==> docs[i] in docs;
        docs := docs + [d];
      }
    }
  }

  /** The node for a branch pattern (matchtree.go:555-569). */
  method NewBranchNode(sh: Shard, pattern: string) returns (node: A.BranchNode)
    requires |sh.branchMasks| < MaxU32
    ensures fresh(node) && fresh(node.all) && node.Ready(-1) && node.fileMasks == sh.branchMasks
    ensures forall d: nat :: node.Sat(d) <==> InBranch(sh, pattern, d)
  {
    hide IsSubstring, A.Overlaps, A.Join;
    var mask := BranchMask(sh, pattern);
    node := new A.BranchNode(sh.branchMasks, mask);
  }

  /** Substrings of fewer than three runes become literal expressions (matchtree.go:619-629). */
  method NewShortSubstring(sh: Shard, s: SubstringQ, ghost src: Source, ghost other: OtherOps) returns (a: A.Atom)
    requires IndexOf(sh, src, other) && |Tokens(s.pattern)| < 3 && Compiles(s.pattern)
    ensures fresh(a.Objects()) && a.Ready(-1) && a.Counts(|src.contents|)
    ensures forall d :: 0 <= d < |src.contents| ==> (a.Sat(d) <==> IndexFinds(sh, s, src.Files(s.fileName)[d]))
    ensures forall d, m :: 0 <= d < |src.contents| ==>
              (a.Shows(d, m) <==> m.fileName == s.fileName && IndexShows(sh, s, src.Files(s.fileName)[d], m))
  {
    hide IndexOf, A.Atom.Ready, A.Atom.Sat, A.Atom.Shows, ValidUtf8, Tokens, SpanOf;
    CountFacts(sh, src, other);
    a := NewRegexpAtom(sh, Literal(Runes(s.pattern), false), s.caseSensitive, s.fileName, src, other);
  }

  lemma FileFacts(sh: Shard, src: Source, other: OtherOps, fileName: bool, d: nat)
    requires IndexOf(sh, src, other) && d < |src.contents|
    ensures |src.Files(fileName)| == |src.contents| == |sh.branchMasks| == |sh.languages| < MaxU32
    ensures EngineOk(sh, other) && sh.Index(fileName).postings.Holds(Tokenize(src.Files(fileName)))
  {
    hide SectionsConverted, EngineOk, CaseTables.Ok;
  }

  /** The leaf for a constant or an atom other than a regular expression. */
  method NewLeaf(sh: Shard, q: Q, ghost src: Source, ghost other: OtherOps) returns (r: Result<A.Atom>)
    requires IndexOf(sh, src, other) && (q.IsAtom() ==> AtomFits(ScopeOf(sh, src), 0, q)) && (q.IsAtom() || q.Const?)
    ensures r.Err? <==> ShortSymbol(q)
    ensures r.Ok? ==> fresh(r.value.Objects()) && r.value.Ready(-1) && r.value.Counts(|src.contents|)
    ensures r.Ok? ==> forall d :: 0 <= d < |src.contents| ==> (r.value.Sat(d) <==> Holds(q, Built(sh, src, d)))
    ensures r.Ok? ==> forall d, m :: 0 <= d < |src.contents| ==> (r.value.Shows(d, m) <==> QueryShows(sh, src, d, q, m))
  {
    hide IndexOf, IndexFinds, IndexFindsSymbol, IndexShows, IndexShowsSymbol, SubstringNode.Shows, NodeOffers, SymbolNodeOffers, ValidUtf8, Scope.RoomFor, InBranch, SubstringNode.Valid, SubstringNode.Sat, Tokens;
    CountFacts(sh, src, other);
    if q.IsAtom() {
      AtomBuilt(sh, src, q);
      AtomShown(sh, src, q);
    }
    match q
    case Substring(s) =>
      var a;
      if RuneCount(s.pattern) < 3 {
        a := NewShortSubstring(sh, s, src, other);
      } else {
        var node := NewSubstringNode(sh, s, src, other);
        forall d, m | 0 <= d < |src.contents|
          ensures node.Shows(d, m) <==> m.fileName == s.fileName && IndexShows(sh, s, src.Files(s.fileName)[d], m)
        {
          NodeShows(node, sh, s, d, m);
        }
        a := A.Substring(node);
      }
      return Ok(a);
    case Symbol(s) =>
      if RuneCount(s.pattern) < 3 {
        return Err("regexps and short queries not implemented for symbol search");
      }
      var node := NewSymbolNode(sh, s, src, other);
      forall d, m | 0 <= d < |src.contents| ensures node.Shows(d, m) <==> !m.fileName && IndexShowsSymbol(sh, src, d, s, m) {
        SymbolNodeShows(node, sh, src, s, d, m);
      }
      return Ok(A.Substring(node));
    case Branch(p) =>
      var node := NewBranchNode(sh, p);
      return Ok(A.Branch(node));
    case Const(v) =>
      if !v {
        return Ok(A.Never);
      }
      var all := new A.BruteForceNode();
      return Ok(A.Everything(all));
    case Language(l) =>
      if l !in sh.languageMap {
        return Ok(A.Never);
      }
      var docs := DocsInLanguage(sh.languages, sh.languageMap[l]);
      var list := new A.DocNode(docs);
      return Ok(A.Listed(list));
  }

  function RuneCount(p: seq<byte>): nat {
    |Tokens(p)|
  }

  lemma CountFacts(sh: Shard, src: Source, other: OtherOps)
    requires IndexOf(sh, src, other)
    ensures |src.contents| == |src.names| == |sh.branchMasks| == |sh.languages| < MaxU32
  {
  }

  // ----- identities -----

  /** All nodes have identities of their own, from `lo` up to `hi`. */
  ghost predicate Ids(t: T.Tree, lo: nat, hi: nat) {
    t.Distinct() && forall x :: x in t.Ids() ==> lo <= x < hi
  }

  ghost predicate IdsOf(ts: seq<T.Tree>, lo: nat, hi: nat) {
    T.DistinctAll(ts) && forall x :: x in T.IdsOf(ts) ==> lo <= x < hi
  }

  lemma IdsAppend(ts: seq<T.Tree>, t: T.Tree, lo: nat, mid: nat, hi: nat)
    requires IdsOf(ts, lo, mid) && Ids(t, mid, hi) && lo <= mid <= hi
    ensures IdsOf(ts + [t], lo, hi)
  {
    hide T.Tree.Distinct, T.Tree.Ids;
    var all := ts + [t];
    forall x | x in T.IdsOf(all) ensures lo <= x < hi {
      var i :| 0 <= i < |all| && x in all[i].Ids();
      if i < |ts| {
        assert all[i] == ts[i] && x in T.IdsOf(ts);
      }
    }
    forall i, j | 0 <= i < j < |all| ensures all[i].Ids() !! all[j].Ids() {
      assert all[i] == ts[i];
      if j == |ts| {
        forall x | x in all[i].Ids() ensures x < mid { assert x in T.IdsOf(ts); }
      }
    }
  }

  // ----- trees -----

  /** A tree that has not seen a document yet. */
  ghost predicate New(t: T.Tree, n: nat)
    reads t.Objects()
  {
    t.Ready(-1) && t.Proper(n)
  }

  /** The tree holds on the documents the query holds on. */
  ghost predicate Means(t: T.Tree, q: Q, sh: Shard, src: Source) {
    forall d :: 0 <= d < |src.contents| ==> (t.Sat(d) <==> Holds(q, Built(sh, src, d)))
  }

  ghost function Fitting(sc: Scope, level: nat): Q -> bool {
    (a: Q) => AtomFits(sc, level, a)
  }

  ghost function Long(): Q -> bool {
    (a: Q) => !ShortSymbol(a)
  }

  // ----- the prefilter of a regular expression -----

  /** The retargeting of the distilled substrings (matchtree.go:498-504). */
  function Retarget(fileName: bool, caseSensitive: bool, q: Q): Q {
    if q.Substring? then Substring(q.sub.(fileName := fileName, caseSensitive := caseSensitive)) else q
  }

  function Prefilter(re: Regexp, fileName: bool, caseSensitive: bool): Q {
    Map(RQ.RegexpToQuery(re, 3), (a: Q) => Retarget(fileName, caseSensitive, a))
  }

  /** All long literals on some way through the expression are found in the document by the index. */
  ghost predicate WayFound(sh: Shard, src: Source, d: nat, re: Regexp, fileName: bool, cs: bool)
    requires d < |src.Files(fileName)|
  {
    exists ls :: RQ.IsWay(re, 3, ls) && forall rs :: rs in ls ==> LiteralShown(sh, src, d, rs, fileName, cs)
  }

  ghost predicate LiteralShown(sh: Shard, src: Source, d: nat, rs: seq<Rune>, fileName: bool, cs: bool)
    requires d < |src.Files(fileName)|
  {
    IndexFinds(sh, SubstringQ(EncodeAll(rs), cs, fileName, false), src.Files(fileName)[d])
  }

  /** The prefilter holds on exactly the documents with all literals of some way: it is as strong as the literals allow. */
  lemma PrefilterIffWay(sh: Shard, src: Source, d: nat, re: Regexp, fileName: bool, cs: bool)
    requires d < |src.contents| == |src.names|
    ensures Holds(Prefilter(re, fileName, cs), Built(sh, src, d)) <==> WayFound(sh, src, d, re, fileName, cs)
  {
    hide RQ.IsWay, RQ.ToQuery, Simplified, IndexFinds, EncodeAll;
    var f, env := (a: Q) => Retarget(fileName, cs, a), Built(sh, src, d);
    var env' := (a: Q) => Holds(f(a), env);
    RQ.PrefilterIffWay(re, 3, env');
    var same := (a: Q) => Holds(f(a), env) == env'(a);
    AnyAtoms(RQ.RegexpToQuery(re, 3), same);
    MapMeaning(RQ.RegexpToQuery(re, 3), f, env, env');
    forall rs ensures env'(RQ.LiteralQuery(rs)) <==> LiteralShown(sh, src, d, rs, fileName, cs) {
      assert f(RQ.LiteralQuery(rs)) == Substring(SubstringQ(EncodeAll(rs), cs, fileName, false));
    }
    forall ls ensures RQ.AllFound(ls, env') <==> forall rs :: rs in ls ==> LiteralShown(sh, src, d, rs, fileName, cs) {
    }
  }

  lemma LiteralCompiles(rs: seq<Rune>)
    requires Scalars(rs)
    ensures Compiles(EncodeAll(rs))
  {
    EncodeAllValid(rs);
  }

  /** The prefilter can be built. */
  lemma PrefilterFits(sh: Shard, src: Source, re: Regexp, fileName: bool, cs: bool)
    requires RQ.Distils(re, 3, LiteralsFit(ScopeOf(sh, src), fileName, cs))
    ensures AllAtoms(Prefilter(re, fileName, cs), Fitting(ScopeOf(sh, src), 0))
    ensures AllAtoms(Prefilter(re, fileName, cs), Long())
  {
    hide Scope.RoomFor, LegibleIn, FoldsLowerIn, FoldsExactIn, Compiles, RQ.Distils, RQ.ToQuery, Simplified, EncodeAll;
    var q, f := RQ.RegexpToQuery(re, 3), (a: Q) => Retarget(fileName, cs, a);
    var fits, long := (a: Q) => AllAtoms(f(a), Fitting(ScopeOf(sh, src), 0)), (a: Q) => AllAtoms(f(a), Long());
    var p := LiteralsFit(ScopeOf(sh, src), fileName, cs);
    forall rs, fold | |EncodeAll(rs)| >= 3 && p(rs, fold) ensures fits(RQ.LiteralQuery(rs)) && long(RQ.LiteralQuery(rs)) {
      LiteralCompiles(rs);
      assert f(RQ.LiteralQuery(rs)) == Substring(SubstringQ(EncodeAll(rs), cs, fileName, false));
      assert AllAtoms(f(RQ.LiteralQuery(rs)), Fitting(ScopeOf(sh, src), 0));
    }
    RQ.DistilledAtoms(re, 3, p, fits);
    RQ.DistilledAtoms(re, 3, p, long);
    SimplifiedAtoms(RQ.ToQuery(re, 3), fits);
    SimplifiedAtoms(RQ.ToQuery(re, 3), long);
    MapAtoms(q, f, Fitting(ScopeOf(sh, src), 0));
    MapAtoms(q, f, Long());
  }

  /** A literal of one or two runes is looked for by the engine itself. */
  lemma ShortLiteralFound(sh: Shard, src: Source, other: OtherOps, d: nat, s: SubstringQ, rs: seq<Rune>, fold: bool, i: int)
    requires EngineOk(sh, other) && d < |src.Files(s.fileName)| && Runes(s.pattern) == rs && |rs| < 3
    requires s.caseSensitive && fold ==> FoldsExactIn(sh.tables, rs, src.Files(s.fileName))
    requires RQ.RunesHere(EngineFor(sh, s.caseSensitive, other), fold, rs, Runes(src.Files(s.fileName)[d]), i)
    ensures IndexFinds(sh, s, src.Files(s.fileName)[d])
  {
    hide EngineOk, Tokens, SameFold, OfferedIn;
    var text := src.Files(s.fileName)[d];
    LiteralMatches(sh, rs, s.caseSensitive, text, other);
    assert |Runes(s.pattern)| == |Tokens(s.pattern)|;
    assert RQ.RunesHere(EngineFor(sh, s.caseSensitive, other), false, rs, Runes(text), i) by {
      if s.caseSensitive && fold {
        assert sh.tables.FoldsExact(rs, Runes(text));
        assert forall k :: 0 <= k < |rs| ==> SameFold(sh.tables.fold, rs[k], Runes(text)[i + k]);
      }
    }
  }

  lemma LongLiteralStands(sh: Shard, s: SubstringQ, text: seq<byte>, other: OtherOps, rs: seq<Rune>, fold: bool, i: int)
    requires Runes(s.pattern) == rs && (s.caseSensitive && fold ==> sh.tables.FoldsExact(rs, Runes(text)))
    requires RQ.RunesHere(EngineFor(sh, s.caseSensitive, other), fold, rs, Runes(text), i)
    ensures RunesAt(Matching(s.caseSensitive, sh.tables.fold), Tokens(s.pattern), Tokens(text), i)
  {
    hide Tokens, SameFold;
    var m, e := Matching(s.caseSensitive, sh.tables.fold), EngineFor(sh, s.caseSensitive, other);
    forall k | 0 <= k < |rs| ensures m.Same(Tokens(s.pattern)[k].rune, Tokens(text)[i + k].rune) {
      assert e.same(fold, rs[k], Runes(text)[i + k]);
      assert rs[k] == Tokens(s.pattern)[k].rune && Runes(text)[i + k] == Tokens(text)[i + k].rune;
    }
  }

  /** A longer one by the index, which offers it, and then by comparison. */
  lemma LongLiteralFound(sh: Shard, src: Source, other: OtherOps, d: nat, s: SubstringQ, rs: seq<Rune>, fold: bool, i: int)
    requires d < |src.Files(s.fileName)| && sh.Index(s.fileName).postings.Holds(Tokenize(src.Files(s.fileName)))
    requires Runes(s.pattern) == rs && |rs| >= 3 && ValidUtf8(s.pattern)
    requires s.caseSensitive && fold ==> FoldsExactIn(sh.tables, rs, src.Files(s.fileName))
    requires if s.caseSensitive then LegibleIn(s.pattern, src.Files(s.fileName)) else FoldsLowerIn(sh.tables, rs, src.Files(s.fileName))
    requires RQ.RunesHere(EngineFor(sh, s.caseSensitive, other), fold, rs, Runes(src.Files(s.fileName)[d]), i)
    ensures IndexFinds(sh, s, src.Files(s.fileName)[d])
  {
    hide Tokens, SameFold, RunesAt, Offered, PostingTable.Holds, ValidUtf8, Legible, Needle.MatchAt, EngineFor, RQ.RunesHere,
      CaseTables.FoldsExact, CaseTables.FoldsLower;
    var files, text := src.Files(s.fileName), src.Files(s.fileName)[d];
    assert |Runes(s.pattern)| == |Tokens(s.pattern)|;
    LongLiteralStands(sh, s, text, other, rs, fold, i);
    PatternOffered(sh.Index(s.fileName).postings, Matching(s.caseSensitive, sh.tables.fold), Tokens(s.pattern), Tokenize(files), d, i);
    RunesAreMatch(NeedleOf(sh, s), text, i);
    assert OfferedIn(sh, s, text, i);
  }

  /** A literal that fits is found wherever the engine sees it. */
  lemma LiteralFound(sh: Shard, src: Source, other: OtherOps, d: nat, fileName: bool, cs: bool, rs: seq<Rune>, fold: bool, i: int)
    requires IndexOf(sh, src, other) && d < |src.contents| && |src.Files(fileName)| == |src.contents|
    requires LiteralFits(ScopeOf(sh, src), fileName, cs, rs, fold)
    requires RQ.RunesHere(EngineFor(sh, cs, other), fold, rs, Runes(src.Files(fileName)[d]), i)
    ensures IndexFinds(sh, SubstringQ(EncodeAll(rs), cs, fileName, false), src.Files(fileName)[d])
  {
    hide IndexOf, EncodeAll, RQ.RunesHere, EngineFor, LegibleIn, FoldsLowerIn, FoldsExactIn, Scope.RoomFor, IndexFinds, ValidUtf8;
    var s := SubstringQ(EncodeAll(rs), cs, fileName, false);
    RunesOfEncodeAll(rs);
    EncodeAllValid(rs);
    FileFacts(sh, src, other, fileName, d);
    if |rs| < 3 {
      ShortLiteralFound(sh, src, other, d, s, rs, fold, i);
    } else {
      LongLiteralFound(sh, src, other, d, s, rs, fold, i);
    }
  }

  /** The prefilter passes every document the expression matches. */
  lemma PrefilterPasses(sh: Shard, src: Source, other: OtherOps, d: nat, re: Regexp, fileName: bool, cs: bool)
    requires IndexOf(sh, src, other) && d < |src.contents| == |src.names|
    requires RQ.Distils(re, 3, LiteralsFit(ScopeOf(sh, src), fileName, cs)) && sh.find(re, cs, src.Files(fileName)[d]) != []
    ensures Holds(Prefilter(re, fileName, cs), Built(sh, src, d))
  {
    hide IndexOf, LiteralFits, RQ.Distils, RQ.ToQuery, Simplified, IndexFinds, RQ.RunesHere, EncodeAll, EngineFor, Runes,
      RQ.Matches, RQ.MatchesSomewhere;
    var text, e := src.Files(fileName)[d], EngineFor(sh, cs, other);
    FileFacts(sh, src, other, fileName, d);
    var f, env := (a: Q) => Retarget(fileName, cs, a), Built(sh, src, d);
    var env' := (a: Q) => Holds(f(a), env);
    var p, p' := LiteralsFit(ScopeOf(sh, src), fileName, cs), RQ.Finds(e, Runes(text), env');
    forall rs, fold | p(rs, fold) ensures p'(rs, fold) {
      if i :| RQ.RunesHere(e, fold, rs, Runes(text), i) {
        LiteralFound(sh, src, other, d, fileName, cs, rs, fold, i);
        assert f(RQ.LiteralQuery(rs)) == Substring(SubstringQ(EncodeAll(rs), cs, fileName, false));
        assert env'(RQ.LiteralQuery(rs));
      }
    }
    RQ.DistilsMore(re, 3, p, p');
    assert RQ.MatchesSomewhere(e, re, Runes(text));
    RQ.PrefilterSound(e, re, Runes(text), 3, env');
    var same := (a: Q) => Holds(f(a), env) == env'(a);
    AnyAtoms(RQ.RegexpToQuery(re, 3), same);
    MapMeaning(RQ.RegexpToQuery(re, 3), f, env, env');
  }

  // ----- the builder -----

  /** A new tree for the query, with identities from `lo` up to `hi`. */
  ghost predicate Made(t: T.Tree, q: Q, sh: Shard, src: Source, lo: nat, hi: nat)
    reads t.Objects()
  {
    New(t, |src.contents|) && Ids(t, lo, hi) && Means(t, q, sh, src) && ShowsSame(t, q, sh, src)
  }

  /** New trees for the queries, none sharing an object or an identity with another. */
  ghost predicate AllMade(ts: seq<T.Tree>, cs: seq<Q>, sh: Shard, src: Source, lo: nat, hi: nat)
    reads T.ObjectsOf(ts)
  {
    && |ts| == |cs| && T.Disjoint(ts) && IdsOf(ts, lo, hi)
    && (forall i :: 0 <= i < |ts| ==> New(ts[i], |src.contents|))
    && (forall i :: 0 <= i < |ts| ==> Means(ts[i], cs[i], sh, src) && ShowsSame(ts[i], cs[i], sh, src))
  }

  lemma Joined(t: T.Tree, q: Q, sh: Shard, src: Source, lo: nat, mid: nat)
    requires (t.And? && q.And?) || (t.Or? && q.Or?)
    requires t.id == mid && lo <= mid && AllMade(t.children, q.children, sh, src, lo, mid)
    ensures Made(t, q, sh, src, lo, mid + 1) && t.Objects() == T.ObjectsOf(t.children)
  {
    hide Built;
    forall d | 0 <= d < |src.contents| ensures t.Sat(d) <==> Holds(q, Built(sh, src, d)) {
      JoinedMeaning(t, q, Built(sh, src, d), d);
    }
    forall d, m | 0 <= d < |src.contents| ensures TreeShows(t, d, m) <==> QueryShows(sh, src, d, q, m) {
      JoinedShows(t, q, sh, src, d, m);
    }
  }

  lemma JoinedShows(t: T.Tree, q: Q, sh: Shard, src: Source, d: nat, m: Match)
    requires (t.And? && q.And?) || (t.Or? && q.Or?)
    requires d < |src.contents| && |t.children| == |q.children|
    requires forall i :: 0 <= i < |t.children| ==> Means(t.children[i], q.children[i], sh, src) && ShowsSame(t.children[i], q.children[i], sh, src)
    ensures TreeShows(t, d, m) <==> QueryShows(sh, src, d, q, m)
  {
    hide Built, AtomShows, ShownBy, T.Tree.Sat, Visible, Holds;
    var ts, cs, env := t.children, q.children, Built(sh, src, d);
    assert TreeShows(t, d, m) == ShownBy(VisibleBelow(ts, d), d, m) by { VisibleJoined(t, d); }
    BelowShows(ts, d, m);
    forall i | 0 <= i < |ts| ensures (ts[i].Sat(d) <==> Holds(cs[i], env)) && (TreeShows(ts[i], d, m) <==> QueryShows(sh, src, d, cs[i], m)) {
      assert Means(ts[i], cs[i], sh, src);
    }
    assert QueryShows(sh, src, d, q, m) == AnyShows(sh, src, d, cs, m) by { ShowsJoined(sh, src, d, q, m); }
  }

  lemma VisibleJoined(t: T.Tree, d: nat)
    requires t.And? || t.Or?
    ensures Visible(t, d) == VisibleBelow(t.children, d)
  {
  }

  lemma ShowsJoined(sh: Shard, src: Source, d: nat, q: Q, m: Match)
    requires q.And? || q.Or?
    ensures QueryShows(sh, src, d, q, m) == AnyShows(sh, src, d, q.children, m)
  {
  }

  /** A leaf counts by itself. */
  lemma LeafShows(t: T.Tree, d: nat, m: Match)
    requires t.Leaf?
    ensures TreeShows(t, d, m) <==> t.atom.Shows(d, m)
  {
    hide A.Atom.Shows;
    assert Visible(t, d) == [t.atom];
    assert t.atom.Shows(d, m) ==> Visible(t, d)[0].Shows(d, m);
  }

  /** Nothing counts below not. */
  lemma NothingCounts(t: T.Tree, d: nat, m: Match)
    requires t.Not? || t.NoVisit?
    ensures !TreeShows(t, d, m)
  {
  }

  lemma JoinedMeaning(t: T.Tree, q: Q, env: Q -> bool, d: nat)
    requires (t.And? && q.And?) || (t.Or? && q.Or?)
    requires |t.children| == |q.children| && forall i :: 0 <= i < |t.children| ==> (t.children[i].Sat(d) <==> Holds(q.children[i], env))
    ensures t.Sat(d) <==> Holds(q, env)
  {
    var ts, cs := t.children, q.children;
    assert T.AllSat(ts, d) <==> AllHold(cs, env);
    assert T.AnySat(ts, d) <==> AnyHolds(cs, env);
  }

  lemma NotMade(t: T.Tree, q: Q, sh: Shard, src: Source, lo: nat, mid: nat)
    requires t.Not? && q.Not? && t.id == mid && lo <= mid && Made(t.child, q.child, sh, src, lo, mid)
    ensures Made(t, q, sh, src, lo, mid + 1) && t.Objects() == t.child.Objects()
  {
    hide Built, TreeShows;
    forall d, m ensures !TreeShows(t, d, m) { NothingCounts(t, d, m); }
  }

  lemma LevelOnlyForRegexps(sh: Shard, src: Source, level: nat, q: Q)
    requires AllAtoms(q, Fitting(ScopeOf(sh, src), level))
    ensures q.IsAtom() ==> AtomFits(ScopeOf(sh, src), level, q)
    ensures q.IsAtom() && !q.Regex? ==> AtomFits(ScopeOf(sh, src), 0, q)
  {
  }

  /** newMatchTree. `level` is 1 where regular expressions may occur: the prefilter of one has none. */
  method NewMatchTree(sh: Shard, q: Q, id0: nat, ghost level: nat, ghost src: Source, ghost other: OtherOps)
    returns (r: Result<T.Tree>, id1: nat)
    requires IndexOf(sh, src, other) && AllAtoms(q, Fitting(ScopeOf(sh, src), level))
    ensures id0 <= id1
    ensures r.Ok? <==> AllAtoms(q, Long())
    ensures r.Ok? ==> fresh(r.value.Objects()) && Made(r.value, q, sh, src, id0, id1)
    decreases level, q, 1
  {
    hide IndexOf, AtomFits, AllMade, Built, TreeShows;
    if q.And? || q.Or? {
      var rs, mid := NewChildren(sh, q.children, id0, level, src, other);
      if rs.Err? {
        return Err(rs.reason), mid;
      }
      var t := if q.And? then T.And(mid, rs.value) else T.Or(mid, rs.value);
      Joined(t, q, sh, src, id0, mid);
      return Ok(t), mid + 1;
    } else if q.Not? {
      var rc, mid := NewMatchTree(sh, q.child, id0, level, src, other);
      if rc.Err? {
        return rc, mid;
      }
      NotMade(T.Not(mid, rc.value), q, sh, src, id0, mid);
      return Ok(T.Not(mid, rc.value)), mid + 1;
    } else if q.Regex? {
      LevelOnlyForRegexps(sh, src, level, q);
      r, id1 := NewRegexTree(sh, q, id0, level, src, other);
    } else {
      LevelOnlyForRegexps(sh, src, level, q);
      r := NewLeafTree(sh, q, id0, src, other);
      id1 := id0 + 1;
    }
  }

  method NewLeafTree(sh: Shard, q: Q, id: nat, ghost src: Source, ghost other: OtherOps) returns (r: Result<T.Tree>)
    requires IndexOf(sh, src, other) && (q.IsAtom() ==> AtomFits(ScopeOf(sh, src), 0, q)) && (q.IsAtom() || q.Const?)
    ensures r.Err? <==> ShortSymbol(q)
    ensures r.Ok? ==> fresh(r.value.Objects()) && Made(r.value, q, sh, src, id, id + 1)
  {
    hide IndexOf, A.Atom.Ready, A.Atom.Sat, A.Atom.Shows, AtomFits, Built, TreeShows, QueryShows;
    var ra := NewLeaf(sh, q, src, other);
    if ra.Err? {
      return Err(ra.reason);
    }
    forall d, m ensures TreeShows(T.Leaf(id, ra.value), d, m) <==> ra.value.Shows(d, m) { LeafShows(T.Leaf(id, ra.value), d, m); }
    return Ok(T.Leaf(id, ra.value));
  }

  method NewChildren(sh: Shard, cs: seq<Q>, id0: nat, ghost level: nat, ghost src: Source, ghost other: OtherOps)
    returns (r: Result<seq<T.Tree>>, id1: nat)
    requires IndexOf(sh, src, other) && EachAtoms(cs, Fitting(ScopeOf(sh, src), level))
    ensures id0 <= id1
    ensures r.Ok? <==> EachAtoms(cs, Long())
    ensures r.Ok? ==> fresh(T.ObjectsOf(r.value)) && AllMade(r.value, cs, sh, src, id0, id1)
    decreases level, cs, 0
  {
    hide IndexOf, Made, AllMade, Fitting, Long, AllAtoms, T.Tree.Objects;
    var ts := [];
    id1 := id0;
    NoneMade(cs, sh, src, id0);
    for k := 0 to |cs|
      invariant id0 <= id1 && |ts| == k
      invariant fresh(T.ObjectsOf(ts)) && AllMade(ts, cs[..k], sh, src, id0, id1)
      invariant forall i :: 0 <= i < k ==> AllAtoms(cs[i], Long())
    {
      assert allocated(T.ObjectsOf(ts));
      assert forall i :: 0 <= i < |ts| ==> allocated(ts[i].Objects());
      var rc, id2 := NewMatchTree(sh, cs[k], id1, level, src, other);
      if rc.Err? {
        return Err(rc.reason), id2;
      }
      OneMore(ts, rc.value, cs, k, sh, src, id0, id1, id2);
      ts, id1 := ts + [rc.value], id2;
    }
    assert cs[..|cs|] == cs;
    return Ok(ts), id1;
  }

  lemma NoneMade(cs: seq<Q>, sh: Shard, src: Source, id: nat)
    ensures AllMade([], cs[..0], sh, src, id, id)
  {
  }

  lemma OneMore(ts: seq<T.Tree>, t: T.Tree, cs: seq<Q>, k: nat, sh: Shard, src: Source, lo: nat, mid: nat, hi: nat)
    requires k < |cs| && lo <= mid <= hi
    requires AllMade(ts, cs[..k], sh, src, lo, mid) && Made(t, cs[k], sh, src, mid, hi) && T.ObjectsOf(ts) !! t.Objects()
    ensures AllMade(ts + [t], cs[..k + 1], sh, src, lo, hi)
    ensures T.ObjectsOf(ts + [t]) == T.ObjectsOf(ts) + t.Objects()
  {
    hide IdsOf, Ids, New, Means, ShowsSame;
    IdsAppend(ts, t, lo, mid, hi);
    var all := ts + [t];
    assert all[|ts|] == t && forall i :: 0 <= i < |ts| ==> all[i] == ts[i];
    forall o ensures o in T.ObjectsOf(all) <==> o in T.ObjectsOf(ts) || o in t.Objects() {
      if o in T.ObjectsOf(ts) {
        var i :| 0 <= i < |ts| && o in ts[i].Objects();
        assert all[i] == ts[i];
      }
    }
  }

  lemma RegexIds(leaf: T.Tree, pre: T.Tree, lo: nat, hi: nat)
    requires leaf.Leaf? && leaf.id == hi && lo <= hi && pre.NoVisit? && pre.id == hi + 1 && Ids(pre.child, lo, hi)
    ensures Ids(T.And(hi + 2, [leaf, pre]), lo, hi + 3)
  {
    hide T.Tree.Distinct, T.Tree.Ids;
    var cs := [leaf, pre];
    assert cs[0] == leaf && cs[1] == pre;
    assert leaf.Ids() == {hi} && leaf.Distinct() by { LeafIds(leaf); }
    assert pre.Ids() == {hi + 1} + pre.child.Ids() && pre.Distinct() by { PrefilterIds(pre, lo, hi); }
    forall x | x in T.IdsOf(cs) ensures lo <= x < hi + 2 {
      var i :| 0 <= i < |cs| && x in cs[i].Ids();
    }
    AndIds(T.And(hi + 2, cs), lo, hi + 2);
  }

  lemma LeafIds(t: T.Tree)
    requires t.Leaf?
    ensures t.Ids() == {t.id} && t.Distinct()
  {
  }

  lemma PrefilterIds(t: T.Tree, lo: nat, hi: nat)
    requires t.NoVisit? && t.id > hi && Ids(t.child, lo, hi)
    ensures t.Ids() == {t.id} + t.child.Ids() && t.Distinct()
  {
  }

  lemma AndIds(t: T.Tree, lo: nat, hi: nat)
    requires t.And? && t.id == hi && lo <= hi && IdsOf(t.children, lo, hi)
    ensures Ids(t, lo, hi + 1)
  {
  }

  lemma RegexNew(leaf: T.Tree, pre: T.Tree, t: T.Tree, n: nat)
    requires t.And? && t.children == [leaf, pre] && New(leaf, n) && New(pre, n) && leaf.Objects() !! pre.Objects()
    ensures New(t, n) && t.Objects() == leaf.Objects() + pre.Objects()
  {
    hide T.Tree.Objects, A.Atom.Ready;
    var cs := t.children;
    assert cs[0] == leaf && cs[1] == pre;
    TwoObjects(t);
  }

  lemma TwoObjects(t: T.Tree)
    requires t.And? && |t.children| == 2
    ensures t.Objects() == t.children[0].Objects() + t.children[1].Objects()
  {
    var cs := t.children;
    forall o ensures o in t.Objects() <==> o in cs[0].Objects() || o in cs[1].Objects() {
    }
  }

  /** The prefilter does not change the meaning of the expression. */
  lemma RegexMeaning(sh: Shard, src: Source, other: OtherOps, q: Q, sub: T.Tree, a: A.Atom, t: T.Tree)
    requires IndexOf(sh, src, other) && q.Regex? && |src.contents| == |src.names|
    requires RQ.Distils(q.re, 3, LiteralsFit(ScopeOf(sh, src), q.fileName, q.caseSensitive))
    requires t.And? && |t.children| == 2 && t.children[0].Leaf? && t.children[0].atom == a
    requires t.children[1].NoVisit? && t.children[1].child == sub
    requires Means(sub, Prefilter(q.re, q.fileName, q.caseSensitive), sh, src)
    requires forall d :: 0 <= d < |src.contents| ==>
               (a.Sat(d) <==> sh.find(q.re, q.caseSensitive, src.Files(q.fileName)[d]) != [])
    requires forall d, m :: 0 <= d < |src.contents| ==>
               (a.Shows(d, m) <==> m.fileName == q.fileName && SpanOf(sh.find(q.re, q.caseSensitive, src.Files(q.fileName)[d]), m))
    ensures Means(t, q, sh, src) && ShowsSame(t, q, sh, src)
  {
    hide IndexOf, Prefilter, A.Atom.Sat, A.Atom.Shows, RQ.Distils, Built, TreeShows;
    AtomBuilt(sh, src, q);
    forall d | 0 <= d < |src.contents| ensures t.Sat(d) <==> Holds(q, Built(sh, src, d)) {
      TwoChildren(t, d);
      if a.Sat(d) {
        PrefilterPasses(sh, src, other, d, q.re, q.fileName, q.caseSensitive);
      }
    }
    forall d, m | 0 <= d < |src.contents| ensures TreeShows(t, d, m) <==> QueryShows(sh, src, d, q, m) {
      RegexShows(t, d, m);
      if a.Shows(d, m) && !a.Sat(d) {
        assert false;
      }
    }
  }

  /** Of the two the expression counts, if both match. */
  lemma RegexShows(t: T.Tree, d: nat, m: Match)
    requires t.And? && |t.children| == 2 && t.children[0].Leaf? && t.children[1].NoVisit?
    ensures TreeShows(t, d, m) <==> t.children[0].Sat(d) && t.children[0].atom.Shows(d, m)
  {
    hide T.Tree.Sat, A.Atom.Shows;
    BelowShows(t.children, d, m);
    VisibleJoined(t, d);
    LeafShows(t.children[0], d, m);
    NothingCounts(t.children[1], d, m);
    if t.children[0].Sat(d) && t.children[0].atom.Shows(d, m) {
      assert t.children[0].Sat(d) && TreeShows(t.children[0], d, m);
    }
  }

  lemma TwoChildren(t: T.Tree, d: nat)
    requires t.And? && |t.children| == 2
    ensures t.Sat(d) <==> t.children[0].Sat(d) && t.children[1].Sat(d)
  {
  }

  /** The second child of the tree holds on exactly the documents with the literals of a way, and shows no matches. */
  ghost predicate HasPrefilter(t: T.Tree, q: Q, sh: Shard, src: Source) {
    && q.Regex? && t.And? && |t.children| == 2 && t.children[1].NoVisit? && |src.contents| == |src.names|
    && forall d :: 0 <= d < |src.contents| ==> (t.children[1].Sat(d) <==> WayFound(sh, src, d, q.re, q.fileName, q.caseSensitive))
  }

  lemma PrefilterKept(t: T.Tree, q: Q, sh: Shard, src: Source)
    requires q.Regex? && t.And? && |t.children| == 2 && t.children[1].NoVisit? && |src.contents| == |src.names|
    requires Means(t.children[1].child, Prefilter(q.re, q.fileName, q.caseSensitive), sh, src)
    ensures HasPrefilter(t, q, sh, src)
  {
    hide Prefilter, Built, WayFound, Holds;
    forall d | 0 <= d < |src.contents| ensures t.children[1].Sat(d) <==> WayFound(sh, src, d, q.re, q.fileName, q.caseSensitive) {
      PrefilterIffWay(sh, src, d, q.re, q.fileName, q.caseSensitive);
    }
  }

  /** The expression together with its prefilter, which is not visited for matches (matchtree.go:496-525). */
  method NewRegexTree(sh: Shard, q: Q, id0: nat, ghost level: nat, ghost src: Source, ghost other: OtherOps)
    returns (r: Result<T.Tree>, id1: nat)
    requires IndexOf(sh, src, other) && q.Regex? && AtomFits(ScopeOf(sh, src), level, q)
    ensures id0 <= id1 && r.Ok?
    ensures fresh(r.value.Objects()) && Made(r.value, q, sh, src, id0, id1)
    ensures HasPrefilter(r.value, q, sh, src)
    decreases level, q, 0
  {
    hide IndexOf, Prefilter, A.Atom.Ready, A.Atom.Sat, RQ.Distils, Built, HasPrefilter;
    var Regex(re, cs, fileName, _) := q;
    PrefilterFits(sh, src, re, fileName, cs);
    CountFacts(sh, src, other);
    var rs, id2 := NewMatchTree(sh, Prefilter(re, fileName, cs), id0, 0, src, other);
    assert rs.Ok?;
    assert allocated(rs.value.Objects());
    var a := NewRegexpAtom(sh, re, cs, fileName, src, other);
    var leaf, pre := T.Leaf(id2, a), T.NoVisit(id2 + 1, rs.value);
    var t := T.And(id2 + 2, [leaf, pre]);
    RegexIds(leaf, pre, id0, id2);
    RegexMeaning(sh, src, other, q, rs.value, a, t);
    RegexNew(leaf, pre, t, |src.contents|);
    PrefilterKept(t, q, sh, src);
    return Ok(t), id2 + 3;
  }
}
