/** A shard as the searcher has it in memory (indexData, indexdata.go), and what its queries mean. */
module ShardIndex {
  import opened Machine
  import opened Utf8
  import opened Corpus
  import opened DeltaCodec
  import opened Postings
  import opened RuneLookup
  import opened ContentMatch
  import opened ContentSlices
  import opened CaseAgreement
  import opened NgramSearch
  import opened TrigramLookup
  import opened SubstringMatching
  import opened DocIterators
  import opened SectionFilter
  import opened Query
  import RQ = RegexpQuery
  import MatchAtoms
  import L = LineAssembly

  /** The index of one kind of text: contents or file names. */
  datatype TextIndex = TextIndex(postings: PostingTable, table: TextTable) {

    /** The bytes of text `d`. */
    function Text(d: nat): seq<byte> {
      if d + 1 < |table.bounds| && table.bounds[d] <= table.bounds[d + 1] <= |table.mapped|
      then table.mapped[table.bounds[d]..table.bounds[d + 1]] else []
    }

    ghost predicate Indexes(files: seq<seq<byte>>, plainASCII: bool) {
      && postings.Holds(Tokenize(files)) && FrequenciesFit(postings)
      && Searchable(table, plainASCII, files)
      && |files| <= 0x8000_0000
    }
  }

  lemma TextIsFile(ix: TextIndex, files: seq<seq<byte>>, plainASCII: bool, d: nat)
    requires ix.Indexes(files, plainASCII) && d < |files|
    ensures ix.Text(d) == files[d] && |files[d]| <= MaxU32
  {
    hide PostingTable.Holds, FrequenciesFit, WindowsFit, AllClosed, Narrow;
    FileInMapped(ix.table, files, d);
  }

  /**
   * A shard. `find` is the regular expression engine: the spans that FindAllIndex
   * reports for an expression, compared exactly or up to case, in a text.
   */
  datatype Shard = Shard(
    repoName: string,
    languageMap: map<string, nat>,
    languages: seq<nat>,
    branchIDs: map<string, bv64>,
    branchMasks: seq<bv64>,
    contents: TextIndex,
    names: TextIndex,
    plainASCII: bool,
    runeDocSections: seq<Section>,
    newlines: seq<seq<u32>>,
    tables: CaseTables,
    find: (Regexp, bool, seq<byte>) -> seq<MatchAtoms.Span>)
  {
    function Index(fileName: bool): TextIndex {
      if fileName then names else contents
    }
  }

  /** The documents a shard was built from. */
  datatype Source = Source(contents: seq<seq<byte>>, names: seq<seq<byte>>, symbols: seq<seq<Section>>) {

    ghost function Files(fileName: bool): seq<seq<byte>> {
      if fileName then names else contents
    }
  }

  /**
   * What decides whether a pattern is searched exactly, all of it known before the search: the case tables, the
   * documents, and how many bytes the file has from the first name and from the first content on.
   */
  datatype Scope = Scope(tables: CaseTables, src: Source, nameBytes: nat, contentBytes: nat) {

    function Mapped(fileName: bool): nat {
      if fileName then nameBytes else contentBytes
    }

    /** A pattern for the index: sums with it stay below 2^32, and compared exactly, slices for it stay in the file. */
    ghost predicate RoomFor(fileName: bool, caseSensitive: bool, pattern: seq<byte>) {
      |Tokens(pattern)| >= 3 ==>
        && |Flat(Tokenize(src.Files(fileName)))| + |Tokens(pattern)| <= MaxU32
        && (caseSensitive ==> SlicesInside(src.Files(fileName), Mapped(fileName), pattern))
    }
  }

  ghost function ScopeOf(sh: Shard, src: Source): Scope {
    Scope(sh.tables, src, |sh.names.table.mapped|, |sh.contents.table.mapped|)
  }

  /** The pattern is legible in all texts. */
  ghost predicate LegibleIn(pattern: seq<byte>, files: seq<seq<byte>>) {
    forall d :: 0 <= d < |files| ==> Legible(pattern, files[d])
  }

  /** Runes of the texts that have the lower case of a rune of `rs` are on its fold cycle. */
  ghost predicate LowerFoldsIn(tables: CaseTables, rs: seq<Rune>, files: seq<seq<byte>>) {
    forall d :: 0 <= d < |files| ==> tables.LowerFolds(rs, Runes(files[d]))
  }

  /** Runes of the texts that are on the fold cycle of a rune of `rs` have its lower case. */
  ghost predicate FoldsLowerIn(tables: CaseTables, rs: seq<Rune>, files: seq<seq<byte>>) {
    forall d :: 0 <= d < |files| ==> tables.FoldsLower(rs, Runes(files[d]))
  }

  /** The texts have no other rune of the fold cycles of `rs`. */
  ghost predicate FoldsExactIn(tables: CaseTables, rs: seq<Rune>, files: seq<seq<byte>>) {
    forall d :: 0 <= d < |files| ==> tables.FoldsExact(rs, Runes(files[d]))
  }

  /**
   * The index and the engine compare a pattern with these texts as its meaning says. Up to case the pattern has to be
   * one for which lower case stays on the fold cycle, and from three runes on nothing more; exactly, a pattern of three
   * runes has to stand on its own, and a shorter one, which the engine looks for rune by rune, has to be legible.
   */
  ghost predicate Comparable(tables: CaseTables, s: SubstringQ, files: seq<seq<byte>>) {
    if s.caseSensitive then
      if |Tokens(s.pattern)| < 3 then LegibleIn(s.pattern, files) else SelfContained(s.pattern)
    else
      && LowerFoldsIn(tables, Runes(s.pattern), files)
      && (|Tokens(s.pattern)| < 3 ==> FoldsLowerIn(tables, Runes(s.pattern), files))
  }

  /** Patterns of fewer than three runes are compiled, which panics on invalid UTF-8 (matchtree.go:619-627). */
  predicate Compiles(pattern: seq<byte>) {
    |Tokens(pattern)| < 3 ==> ValidUtf8(pattern)
  }

  /** The engine's view of a text. */
  ghost function EngineFor(sh: Shard, caseSensitive: bool, other: RQ.OtherOps): RQ.Engine {
    EngineOver(sh.tables, caseSensitive, other)
  }

  /** The engine reports something exactly when the expression matches, and spans of the text. */
  ghost predicate EngineOk(sh: Shard, other: RQ.OtherOps) {
    && (forall re, cs, text :: sh.find(re, cs, text) != [] <==>
                               RQ.MatchesSomewhere(EngineFor(sh, cs, other), re, Runes(text)))
    && forall re, cs, text :: SpansInside(sh.find(re, cs, text), text)
  }

  ghost predicate SpansInside(spans: seq<MatchAtoms.Span>, text: seq<byte>) {
    forall i :: 0 <= i < |spans| ==> spans[i].start <= spans[i].end <= |text|
  }

  /** The rune sections of the documents, one list after the other, mark the same places as the byte sections. */
  ghost predicate SectionsConverted(secs: seq<Section>, src: Source) {
    exists parts: seq<seq<Section>> ::
      && |parts| == |src.contents| == |src.symbols|
      && secs == JoinAll(parts)
      && forall d :: 0 <= d < |parts| ==> DocSectionsConverted(parts[d], src, d)
  }

  ghost predicate DocSectionsConverted(part: seq<Section>, src: Source, d: nat)
    requires d < |src.contents| && d < |src.symbols|
  {
    SamePlaces(src.contents[d], Start(Tokenize(src.contents), d), Boundaries(src.symbols[d]), Boundaries(part))
    && SectionsFit(src.symbols[d], |src.contents[d]|)
  }

  /** The newlines of every document are known. */
  ghost predicate NewlinesKnown(sh: Shard, src: Source) {
    |sh.newlines| == |src.contents| && forall d :: 0 <= d < |src.contents| ==> L.AreNewlines(sh.newlines[d], src.contents[d])
  }

  /** The shard is the index of these documents. */
  ghost predicate IndexOf(sh: Shard, src: Source, other: RQ.OtherOps) {
    && |src.contents| == |src.names| == |src.symbols| == |sh.branchMasks| == |sh.languages|
    && sh.contents.Indexes(src.contents, sh.plainASCII) && !sh.contents.table.fileName
    && sh.names.Indexes(src.names, sh.plainASCII) && sh.names.table.fileName
    && SectionsConverted(sh.runeDocSections, src) && NewlinesKnown(sh, src)
    && sh.tables.Ok()
    && EngineOk(sh, other)
  }

  /** All that partial evaluation needs: names and contents in pairs, and the engine. */
  ghost predicate Evaluable(sh: Shard, src: Source, other: RQ.OtherOps) {
    |src.contents| == |src.names| && EngineOk(sh, other)
  }

  lemma IndexEvaluable(sh: Shard, src: Source, other: RQ.OtherOps)
    requires IndexOf(sh, src, other)
    ensures Evaluable(sh, src, other)
  {
    hide EngineOk, TextIndex.Indexes, SectionsConverted, NewlinesKnown, CaseTables.Ok;
  }

  // ----- meaning -----

  ghost function NeedleOf(sh: Shard, s: SubstringQ): Needle {
    Needle(s.pattern, LoweredBytes(sh.tables.lower, Runes(s.pattern)), s.caseSensitive, sh.tables)
  }

  /** The index offers rune `r` of the text as a place of the pattern. */
  ghost predicate OfferedIn(sh: Shard, s: SubstringQ, text: seq<byte>, r: int) {
    && |Tokens(s.pattern)| >= 3
    && Offered(sh.Index(s.fileName).postings, Matching(s.caseSensitive, sh.tables.fold), Tokens(s.pattern), Tokens(text), r)
  }

  /** What the index finds: a place that it offers and that matches; for fewer than three runes, what the engine finds. */
  ghost predicate IndexFinds(sh: Shard, s: SubstringQ, text: seq<byte>) {
    if |Tokens(s.pattern)| < 3 then sh.find(Literal(Runes(s.pattern), false), s.caseSensitive, text) != []
    else exists r :: OfferedIn(sh, s, text, r) && NeedleOf(sh, s).MatchAt(text, r)
  }

  /** The same inside the symbols of document `d`. */
  ghost predicate IndexFindsSymbol(sh: Shard, src: Source, d: nat, s: SubstringQ)
    requires d < |src.contents|
  {
    exists r :: OfferedIn(sh, s, src.contents[d], r) && NeedleOf(sh, s).MatchAt(src.contents[d], r)
                && InSymbol(src, d, r, |Tokens(s.pattern)|)
  }

  /** The match starts at rune `r` of the text. */
  ghost predicate MatchFrom(sh: Shard, s: SubstringQ, text: seq<byte>, r: int, m: Match) {
    && NeedleOf(sh, s).MatchAt(text, r)
    && m.start == Offset(text, r) && m.size == NeedleOf(sh, s).MatchSize(text, r)
  }

  /** The match is one of the spans. */
  ghost predicate SpanOf(spans: seq<MatchAtoms.Span>, m: Match) {
    exists i :: 0 <= i < |spans| && m.start == spans[i].start && m.size == spans[i].end - spans[i].start
  }

  /** The matches that the index shows for a pattern. */
  ghost predicate IndexShows(sh: Shard, s: SubstringQ, text: seq<byte>, m: Match) {
    if |Tokens(s.pattern)| < 3 then SpanOf(sh.find(Literal(Runes(s.pattern), false), s.caseSensitive, text), m)
    else exists r :: OfferedIn(sh, s, text, r) && MatchFrom(sh, s, text, r, m)
  }

  ghost predicate IndexShowsSymbol(sh: Shard, src: Source, d: nat, s: SubstringQ, m: Match)
    requires d < |src.contents|
  {
    exists r :: OfferedIn(sh, s, src.contents[d], r) && MatchFrom(sh, s, src.contents[d], r, m)
                && InSymbol(src, d, r, |Tokens(s.pattern)|)
  }

  /** Rune `r` of document `d` and the following runes of the pattern lie inside a symbol. */
  ghost predicate InSymbol(src: Source, d: nat, r: int, n: nat) {
    && d < |src.symbols| && d < |src.contents| && 0 <= r
    && exists i :: 0 <= i < |src.symbols[d]| && src.symbols[d][i].start <= Offset(src.contents[d], r)
                   && Offset(src.contents[d], r + n) <= src.symbols[d][i].end
  }

  ghost predicate SymbolFound(sh: Shard, src: Source, d: nat, s: SubstringQ)
    requires d < |src.contents|
  {
    exists r :: NeedleOf(sh, s).MatchAt(src.contents[d], r) && InSymbol(src, d, r, |Tokens(s.pattern)|)
  }

  /** The branches a branch pattern stands for (matchtree.go:555-565). */
  ghost predicate InBranch(sh: Shard, pattern: string, d: nat) {
    && d < |sh.branchMasks|
    && if pattern == "HEAD" then MatchAtoms.Overlaps(sh.branchMasks[d], 1)
       else exists b :: b in sh.branchIDs && IsSubstring(pattern, b) && MatchAtoms.Overlaps(sh.branchMasks[d], sh.branchIDs[b])
  }

  predicate StandsAt(p: string, s: string, i: nat) {
    i + |p| <= |s| && s[i..i + |p|] == p
  }

  /** strings.Contains. */
  predicate IsSubstring(p: string, s: string) {
    exists i :: 0 <= i <= |s| && StandsAt(p, s, i)
  }

  /** It is what is left after taking something away at both ends. */
  lemma IsSubstringIff(p: string, s: string)
    ensures IsSubstring(p, s) <==> exists a, b :: s == a + p + b
  {
    if IsSubstring(p, s) {
      var i :| 0 <= i <= |s| && StandsAt(p, s, i);
      assert s == s[..i] + p + s[i + |p|..];
    }
    if a, b :| s == a + p + b {
      assert s[|a|..|a| + |p|] == p;
      assert StandsAt(p, s, |a|);
    }
  }

  /** What one atom says about document `d`, by looking at the documents only. */
  ghost predicate AtomHolds(sh: Shard, src: Source, d: nat, q: Q) {
    d < |src.contents| && d < |src.names| &&
    match q
    case Substring(s) =>
      var n := NeedleOf(sh, s);
      if s.fileName then n.FoundIn(src.names[d])
      else if s.content then n.FoundIn(src.contents[d])
      else n.FoundIn(src.names[d]) || n.FoundIn(src.contents[d])
    case Regex(re, cs, fileName, content) =>
      if fileName then sh.find(re, cs, src.names[d]) != []
      else if content then sh.find(re, cs, src.contents[d]) != []
      else sh.find(re, cs, src.names[d]) != [] || sh.find(re, cs, src.contents[d]) != []
    case Symbol(s) => SymbolFound(sh, src, d, s)
    case Repo(p) => IsSubstring(p, sh.repoName)
    case RepoSet(repos) => sh.repoName in repos && repos[sh.repoName]
    case Language(l) => l in sh.languageMap && d < |sh.languages| && sh.languages[d] == sh.languageMap[l]
    case Branch(p) => p == "" || InBranch(sh, p, d)
    case _ => true
  }

  ghost function On(sh: Shard, src: Source, d: nat): Q -> bool {
    (q: Q) => AtomHolds(sh, src, d, q)
  }
}
