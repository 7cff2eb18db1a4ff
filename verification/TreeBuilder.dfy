/** From queries to match trees (newMatchTree, matchtree.go:494-637). */
module TreeBuilder {
  import opened Machine
  import opened Utf8
  import opened Corpus
  import opened DeltaCodec
  import opened Postings
  import opened RuneLookup
  import opened ContentMatch
  import opened ContentSlices
  import opened CaseFolding
  import opened NgramSearch
  import opened TrigramLookup
  import opened DocIterators
  import opened SectionFilter
  import opened SubstringMatching
  import opened ShardIndex
  import opened SymbolSections
  import Query
  import RQ = RegexpQuery
  import A = MatchAtoms

  // ----- substrings -----

  lemma RoomLemma(ix: TextIndex, files: seq<seq<byte>>, plainASCII: bool)
    requires ix.Indexes(files, plainASCII)
    ensures ix.table.endRunes == Ends(Tokenize(files)) && |ix.table.endRunes| == |files| && |Flat(Tokenize(files))| < MaxU32
  {
    hide PostingTable.Holds, FrequenciesFit, WindowsFit, AllClosed, Narrow, ValidUtf8, Sampled;
    WidthOfCorpus(files);
  }

  /** Every match of a comparable pattern is offered. */
  lemma MatchIsOffered(sh: Shard, s: Query.SubstringQ, files: seq<seq<byte>>, d: nat, r: int)
    requires sh.Index(s.fileName).postings.Holds(Tokenize(files)) && d < |files|
    requires |Tokens(s.pattern)| >= 3 && Comparable(sh.tables, s, files) && NeedleOf(sh, s).MatchAt(files[d], r)
    ensures OfferedIn(sh, s, files[d], r)
  {
    hide Needle.MatchAt, RunesAt, Offered, PostingTable.Holds, Tokens, SelfContained, CaseTables.LowerFolds;
    MatchIsRunes(NeedleOf(sh, s), files[d], r);
    PatternOffered(sh.Index(s.fileName).postings, Matching(s.caseSensitive, sh.tables.fold), Tokens(s.pattern), Tokenize(files), d, r);
  }

  /** Where a pattern is comparable the index finds exactly the texts that contain it. */
  lemma FindsIffContains(sh: Shard, s: Query.SubstringQ, files: seq<seq<byte>>, d: nat, other: RQ.OtherOps)
    requires sh.Index(s.fileName).postings.Holds(Tokenize(files)) && EngineOk(sh, other) && d < |files|
    requires Compiles(s.pattern) && Comparable(sh.tables, s, files)
    ensures IndexFinds(sh, s, files[d]) <==> NeedleOf(sh, s).FoundIn(files[d])
  {
    hide Needle.MatchAt, OfferedIn, PostingTable.Holds, EngineOk, Tokens, ValidUtf8, SelfContained, Legible, CaseTables.LowerFolds,
      CaseTables.FoldsLower;
    if |Tokens(s.pattern)| < 3 {
      ShortFound(sh, s, files[d], other);
    } else {
      forall r | NeedleOf(sh, s).MatchAt(files[d], r) ensures OfferedIn(sh, s, files[d], r) {
        MatchIsOffered(sh, s, files, d, r);
      }
    }
  }

  /** The needle of a substring query: its bytes and their lower case form. */
  method NewNeedle(sh: Shard, s: Query.SubstringQ) returns (n: Needle)
    requires sh.tables.Ok() && s.pattern != []
    ensures n == NeedleOf(sh, s) && n.Ok()
  {
    var low := ToLower(sh.tables.lower, s.pattern);
    n := Needle(s.pattern, low, s.caseSensitive, sh.tables);
  }

  /** A regexp leaf for one expression over the names or contents (matchtree.go:516-519, 624-627). */
  method NewRegexpAtom(sh: Shard, re: Query.Regexp, caseSensitive: bool, fileName: bool, ghost src: Source,
                       ghost other: RQ.OtherOps)
    returns (a: A.Atom)
    requires IndexOf(sh, src, other)
    ensures fresh(a.Objects()) && a.Ready(-1) && a.Counts(|src.contents|)
    ensures forall d :: 0 <= d < |src.contents| ==>
              (a.Sat(d) <==> sh.find(re, caseSensitive, src.Files(fileName)[d]) != [])
    ensures forall d, m :: 0 <= d < |src.contents| ==>
              (a.Shows(d, m) <==> m.fileName == fileName && SpanOf(sh.find(re, caseSensitive, src.Files(fileName)[d]), m))
  {
    hide SectionsConverted, NewlinesKnown, CaseTables.Ok, EngineOk, TextIndex.Indexes, TextIndex.Text, SpansInside;
    var ix := sh.Index(fileName);
    var find := sh.find;
    var node := new A.RegexpNode(fileName, (d: nat) => find(re, caseSensitive, ix.Text(d)));
    a := A.Regexp(node);
    CountLemma(sh.contents, src.contents, sh.plainASCII);
    forall d | 0 <= d < |src.contents|
      ensures a.Sat(d) <==> sh.find(re, caseSensitive, src.Files(fileName)[d]) != []
    {
      TextIsFile(ix, src.Files(fileName), sh.plainASCII, d);
    }
    forall d, m | 0 <= d < |src.contents|
      ensures a.Shows(d, m) <==> m.fileName == fileName && SpanOf(sh.find(re, caseSensitive, src.Files(fileName)[d]), m)
    {
      TextIsFile(ix, src.Files(fileName), sh.plainASCII, d);
      assert SpansInside(node.findAll(d), src.Files(fileName)[d]) by { FoundInside(sh, re, caseSensitive, src.Files(fileName)[d], other); }
      SpansShown(node, d, src.Files(fileName)[d], m);
    }
  }

  lemma FoundInside(sh: Shard, re: Query.Regexp, cs: bool, text: seq<byte>, other: RQ.OtherOps)
    requires EngineOk(sh, other)
    ensures SpansInside(sh.find(re, cs, text), text)
  {
  }

  lemma SpansShown(node: A.RegexpNode, d: nat, text: seq<byte>, m: Match)
    requires SpansInside(node.findAll(d), text)
    ensures node.Shows(d, m) <==> m.fileName == node.fileName && SpanOf(node.findAll(d), m)
  {
    var spans := node.findAll(d);
    assert forall i :: 0 <= i < |spans| ==> Wrap(spans[i].end - spans[i].start) == spans[i].end - spans[i].start;
  }

  lemma CountLemma(ix: TextIndex, files: seq<seq<byte>>, plainASCII: bool)
    requires ix.Indexes(files, plainASCII)
    ensures |files| < MaxU32
  {
  }

  /** The engine and the comparison agree on these runes in this text. */
  ghost predicate Agree(sh: Shard, s: Query.SubstringQ, text: seq<byte>) {
    if s.caseSensitive then ValidUtf8(s.pattern) && Legible(s.pattern, text)
    else sh.tables.LowerFolds(Runes(s.pattern), Runes(text)) && sh.tables.FoldsLower(Runes(s.pattern), Runes(text))
  }

  /** Where they agree a needle is found exactly where the engine finds its runes. */
  lemma ShortFound(sh: Shard, s: Query.SubstringQ, text: seq<byte>, other: RQ.OtherOps)
    requires EngineOk(sh, other) && Agree(sh, s, text)
    ensures sh.find(Query.Literal(Runes(s.pattern), false), s.caseSensitive, text) != [] <==> NeedleOf(sh, s).FoundIn(text)
  {
    hide EngineOk, Agree, EngineFor, Needle.MatchAt, RQ.RunesHere;
    LiteralMatches(sh, Runes(s.pattern), s.caseSensitive, text, other);
    var n, e := NeedleOf(sh, s), EngineFor(sh, s.caseSensitive, other);
    forall r: int ensures n.MatchAt(text, r) <==> RQ.RunesHere(e, false, Runes(s.pattern), Runes(text), r) {
      MatchIffRunesHere(sh, s, text, other, r);
    }
  }

  lemma MatchIffRunesHere(sh: Shard, s: Query.SubstringQ, text: seq<byte>, other: RQ.OtherOps, r: int)
    requires Agree(sh, s, text)
    ensures NeedleOf(sh, s).MatchAt(text, r) <==>
            RQ.RunesHere(EngineFor(sh, s.caseSensitive, other), false, Runes(s.pattern), Runes(text), r)
  {
    hide Tokens, Offset, ValidUtf8, OccursAt, Legible, SameFold;
    var p, ts := Tokens(s.pattern), Tokens(text);
    if 0 <= r && r + |p| <= |ts| && s.caseSensitive {
      OccursIffRunes(s.pattern, text, r);
      assert SameRunesAt(p, ts, r) <==> RQ.RunesHere(EngineFor(sh, true, other), false, Runes(s.pattern), Runes(text), r);
    }
  }

  lemma LiteralMatches(sh: Shard, rs: seq<Rune>, cs: bool, text: seq<byte>, other: RQ.OtherOps)
    requires EngineOk(sh, other)
    ensures sh.find(Query.Literal(rs, false), cs, text) != [] <==>
            exists i :: RQ.RunesHere(EngineFor(sh, cs, other), false, rs, Runes(text), i)
  {
    hide RQ.RunesHere, EngineFor, RQ.Matches;
    var e := EngineFor(sh, cs, other);
    assert sh.find(Query.Literal(rs, false), cs, text) != [] <==> RQ.MatchesSomewhere(e, Query.Literal(rs, false), Runes(text));
    RQ.LiteralSomewhere(e, rs, false, Runes(text));
  }

  /** The offers of the node's iterator, by looking at the texts. */
  ghost predicate NodeOffers(node: SubstringNode, sh: Shard, s: Query.SubstringQ) {
    forall d, r :: 0 <= d < |node.files| ==> (r in node.iter.Offers(d) <==> OfferedIn(sh, s, node.files[d], r))
  }

  /** newSubstringMatchTree for a pattern of three runes or more. */
  method NewSubstringNode(sh: Shard, s: Query.SubstringQ, ghost src: Source, ghost other: RQ.OtherOps)
    returns (node: SubstringNode)
    requires IndexOf(sh, src, other) && |Tokens(s.pattern)| >= 3
    requires ScopeOf(sh, src).RoomFor(s.fileName, s.caseSensitive, s.pattern)
    ensures fresh(node.Objects()) && node.Valid() && node.cursor == -1 && |node.files| == |src.contents|
    ensures node.needle == NeedleOf(sh, s) && node.files == src.Files(s.fileName) && node.table.fileName == s.fileName
    ensures NodeOffers(node, sh, s)
    ensures forall d :: 0 <= d < |src.contents| ==> (node.Sat(d) <==> IndexFinds(sh, s, src.Files(s.fileName)[d]))
  {
    hide SectionsConverted, NewlinesKnown, EngineOk, SlicesInside, FrequenciesFit, PostingTable.Holds, Searchable,
      PlainIterator.Ready, Needle.MatchAt, Needle.Ok, Flat, Tokenize, Bytes, Ends, Offered,
      PlainIterator.Offers, CaseTables.Ok, Tokens;
    var ix := sh.Index(s.fileName);
    ghost var files := src.Files(s.fileName);
    RoomLemma(ix, files, sh.plainASCII);
    NonemptyPattern(s.pattern);
    var n := NewNeedle(sh, s);
    NeedleFacts(n);
    var m := Matching(s.caseSensitive, sh.tables.fold);
    var it := IterateNgrams(ix.postings, ix.table.endRunes, m, s.pattern, Tokenize(files));
    TokenizeLengths(files);
    OffersFit(it, ix.postings, m, Tokens(s.pattern), Tokenize(files));
    node := new SubstringNode(Plain(it), n, ix.table, sh.plainASCII, files);
    assert forall d, r :: 0 <= d < |files| ==> (r in node.iter.Offers(d) <==> OfferedIn(sh, s, files[d], r));
  }

  lemma OffersFit(it: PlainIterator, t: PostingTable, m: Matching, pat: seq<Token>, docs: Docs)
    requires |pat| >= 3 && OffersExactly(it, t, m, pat, docs)
    ensures forall d, r :: 0 <= d < |docs| && r in it.Offers(d) ==> 0 <= r && r + |pat| <= |docs[d]|
  {
    hide PlainIterator.Offers, FrequenciesOf, BothAt;
  }

  /** The iterator of the node offers every match. */
  ghost predicate OffersAll(node: SubstringNode) {
    forall d, r :: 0 <= d < |node.files| && node.needle.MatchAt(node.files[d], r) ==> r in node.iter.Offers(d)
  }

  /** The node shows what the index shows. */
  lemma NodeShows(node: SubstringNode, sh: Shard, s: Query.SubstringQ, d: nat, m: Match)
    requires node.needle == NeedleOf(sh, s) && NodeOffers(node, sh, s) && d < |node.files| && |Tokens(s.pattern)| >= 3
    ensures node.Shows(d, m) <==> m.fileName == node.table.fileName && IndexShows(sh, s, node.files[d], m)
  {
    hide Needle.MatchAt, Needle.MatchSize, OfferedIn, Offset, Tokens;
  }

  lemma SymbolNodeShows(node: SubstringNode, sh: Shard, src: Source, s: Query.SubstringQ, d: nat, m: Match)
    requires node.needle == NeedleOf(sh, s) && node.files == src.contents && d < |src.contents| && SymbolNodeOffers(node, sh, src, s)
    ensures node.Shows(d, m) <==> m.fileName == node.table.fileName && IndexShowsSymbol(sh, src, d, s, m)
  {
    hide Needle.MatchAt, Needle.MatchSize, OfferedIn, Offset, Tokens, InSymbol;
  }

  /** A node for a comparable pattern offers all its matches. */
  lemma OffersAllMatches(node: SubstringNode, sh: Shard, s: Query.SubstringQ)
    requires sh.Index(s.fileName).postings.Holds(Tokenize(node.files)) && |Tokens(s.pattern)| >= 3
    requires node.needle == NeedleOf(sh, s) && NodeOffers(node, sh, s) && Comparable(sh.tables, s, node.files)
    ensures OffersAll(node)
  {
    hide Needle.MatchAt, OfferedIn, PostingTable.Holds, Comparable, Tokens;
    forall d, r | 0 <= d < |node.files| && node.needle.MatchAt(node.files[d], r) ensures r in node.iter.Offers(d) {
      MatchIsOffered(sh, s, node.files, d, r);
    }
  }

  /** The candidates that are left after matching are the matches, each once, at its bytes. */
  lemma CandidatesAreMatches(node: SubstringNode, doc: nat)
    requires node.Valid() && node.cursor == doc < |node.files| && OffersAll(node)
    requires forall i :: 0 <= i < |node.current| ==> node.Confirmed(node.current[i], doc)
    ensures forall r :: node.needle.MatchAt(node.files[doc], r) <==> exists i :: 0 <= i < |node.current| && node.current[i].runeOffset == r
    ensures forall i, j :: 0 <= i < j < |node.current| ==> node.current[i].runeOffset < node.current[j].runeOffset
  {
    hide SubstringNode.Setup, Needle.MatchAt, Offset;
  }

  /** For a case sensitive pattern they are the occurrences of its bytes in the bytes of the document. */
  lemma CandidatesAreOccurrences(node: SubstringNode, doc: nat)
    requires node.Valid() && node.cursor == doc < |node.files| && OffersAll(node)
    requires node.needle.caseSensitive && SelfContained(node.needle.pattern)
    requires forall i :: 0 <= i < |node.current| ==> node.Confirmed(node.current[i], doc)
    ensures forall b: nat :: OccursAt(node.needle.pattern, node.files[doc], b) <==>
                             exists i :: 0 <= i < |node.current| && node.current[i].byteOffset == b
    ensures forall i :: 0 <= i < |node.current| ==> node.current[i].byteMatchSz == |node.needle.pattern|
  {
    hide SubstringNode.Valid, Tokens, Offset, OccursAt;
    CandidatesAreMatches(node, doc);
    FoundIffBytesOccur(node.needle, node.files[doc]);
    forall b: nat | OccursAt(node.needle.pattern, node.files[doc], b)
      ensures exists i :: 0 <= i < |node.current| && node.current[i].byteOffset == b
    {
      var r :| node.needle.MatchAt(node.files[doc], r) && Offset(node.files[doc], r) == b;
      var i :| 0 <= i < |node.current| && node.current[i].runeOffset == r;
      assert node.Confirmed(node.current[i], doc);
    }
  }

  lemma NonemptyPattern(p: seq<byte>)
    requires |Tokens(p)| >= 1
    ensures p != []
  {
  }

  lemma NeedleFacts(n: Needle)
    requires n.Ok()
    ensures n.tables.Ok() && Matching(n.caseSensitive, n.tables.fold).Ok()
  {
  }

  lemma TokenizeLengths(files: seq<seq<byte>>)
    ensures |Tokenize(files)| == |files|
    ensures forall d :: 0 <= d < |files| ==> Tokenize(files)[d] == Tokens(files[d])
  {
  }

  // ----- symbols -----

  /** The offers of a section iterator, for candidates inside their document, in terms of the documents. */
  lemma SymbolOffers(sh: Shard, s: Query.SubstringQ, src: Source, it: PlainIterator, d: nat)
    requires SectionsConverted(sh.runeDocSections, src) && d < |src.contents| && |Tokens(s.pattern)| >= 3 && !s.fileName
    requires |Flat(Tokenize(src.contents))| <= MaxU32
    requires OffersExactly(it, sh.contents.postings, Matching(s.caseSensitive, sh.tables.fold), Tokens(s.pattern), Tokenize(src.contents))
    ensures forall r :: NeedleOf(sh, s).MatchAt(src.contents[d], r) ==>
              (r in InsideOnly(it.Offers(d), sh.runeDocSections, StartOf(U32Ends(Tokenize(src.contents)), d), |Tokens(s.pattern)|) <==>
               OfferedIn(sh, s, src.contents[d], r) && InSymbol(src, d, r, |Tokens(s.pattern)|))
  {
    hide Needle.MatchAt, Offered, PlainIterator.Offers, InSymbol, Tokens, Flat, Inside, SectionsConverted;
    var n, k, docs := NeedleOf(sh, s), |Tokens(s.pattern)|, Tokenize(src.contents);
    StartOfIsStart(docs, d);
    forall r ensures r in it.Offers(d) <==> OfferedIn(sh, s, src.contents[d], r) {
      assert docs[d] == Tokens(src.contents[d]);
    }
    forall r | n.MatchAt(src.contents[d], r)
      ensures Inside(sh.runeDocSections, Start(docs, d) + r, Start(docs, d) + r + k) <==> InSymbol(src, d, r, k)
    {
      MatchFits(n, src.contents[d], r);
      SymbolInside(sh.runeDocSections, src, d, r, k);
    }
  }

  /** The offers of a symbol node, where the pattern matches. */
  ghost predicate SymbolNodeOffers(node: SubstringNode, sh: Shard, src: Source, s: Query.SubstringQ) {
    forall d, r :: 0 <= d < |src.contents| && NeedleOf(sh, s).MatchAt(src.contents[d], r) ==>
      (r in node.iter.Offers(d) <==> OfferedIn(sh, s, src.contents[d], r) && InSymbol(src, d, r, |Tokens(s.pattern)|))
  }

  lemma MatchFits(n: Needle, text: seq<byte>, r: int)
    requires n.MatchAt(text, r)
    ensures 0 <= r && r + n.Length() <= |Tokens(text)|
  {
  }

  lemma SymbolInside(secs: seq<Section>, src: Source, d: nat, r: nat, n: nat)
    requires SectionsConverted(secs, src) && d < |src.contents| && n >= 1 && r + n <= |Tokens(src.contents[d])|
    ensures var a := Start(Tokenize(src.contents), d) + r; Inside(secs, a, a + n) <==> InSymbol(src, d, r, n)
  {
    hide Inside, InSymbol, Tokens, Flat, DocSectionsConverted;
    var parts := SectionParts(secs, src);
    InsideOwn(parts, Tokenize(src.contents), d, r, n);
    InsideIffInSymbol(parts[d], src, d, r, n);
  }

  lemma SectionParts(secs: seq<Section>, src: Source) returns (parts: seq<seq<Section>>)
    requires SectionsConverted(secs, src)
    ensures |parts| == |src.contents| == |src.symbols| && secs == JoinAll(parts)
    ensures forall d :: 0 <= d < |parts| ==> DocSectionsConverted(parts[d], src, d)
    ensures PartsOk(parts, Tokenize(src.contents))
  {
    hide DocSectionsConverted, SectionIn;
    parts :| |parts| == |src.contents| == |src.symbols| && secs == JoinAll(parts)
             && forall d :: 0 <= d < |parts| ==> DocSectionsConverted(parts[d], src, d);
    forall d | 0 <= d < |parts|
      ensures forall i :: 0 <= i < |parts[d]| ==> SectionIn(parts[d][i], Tokenize(src.contents), d)
      ensures forall i, j :: 0 <= i < j < |parts[d]| ==> parts[d][i].end <= parts[d][j].start
    {
      PartFacts(parts[d], src, d);
    }
  }

  /** The symbol node: a substring node whose iterator keeps to the symbol sections (matchtree.go:591-606). */
  method NewSymbolNode(sh: Shard, s: Query.SubstringQ, ghost src: Source, ghost other: RQ.OtherOps)
    returns (node: SubstringNode)
    requires IndexOf(sh, src, other) && |Tokens(s.pattern)| >= 3 && !s.fileName
    requires ScopeOf(sh, src).RoomFor(false, s.caseSensitive, s.pattern)
    ensures fresh(node.Objects()) && node.Valid() && node.cursor == -1 && |node.files| == |src.contents|
    ensures node.needle == NeedleOf(sh, s) && node.files == src.contents && !node.table.fileName
    ensures SymbolNodeOffers(node, sh, src, s)
    ensures forall d :: 0 <= d < |src.contents| ==>
              (node.Sat(d) <==> IndexFindsSymbol(sh, src, d, s))
  {
    hide SectionsConverted, NewlinesKnown, EngineOk, SlicesInside, FrequenciesFit, PostingTable.Holds, Searchable,
      PlainIterator.Ready, Needle.MatchAt, Needle.Ok, Flat, Tokenize, Bytes, Ends, OfferedIn, OffersExactly, TrimBySectionIterator.Ready,
      PlainIterator.Offers, CaseTables.Ok, Tokens, Inside, InSymbol, SectionsOk;
    var ix := sh.contents;
    ghost var files := src.contents;
    RoomLemma(ix, files, sh.plainASCII);
    NonemptyPattern(s.pattern);
    var n := NewNeedle(sh, s);
    NeedleFacts(n);
    var m := Matching(s.caseSensitive, sh.tables.fold);
    var it := IterateNgrams(ix.postings, ix.table.endRunes, m, s.pattern, Tokenize(files));
    TokenizeLengths(files);
    TrimFacts(sh.runeDocSections, src);
    OffersFit(it, ix.postings, m, Tokens(s.pattern), Tokenize(files));
    OffersInside(it, Tokenize(files), |Tokens(s.pattern)|);
    var trim := new TrimBySectionIterator(it, |Tokens(s.pattern)|, ix.table.endRunes, sh.runeDocSections);
    node := new SubstringNode(InSections(trim), n, ix.table, sh.plainASCII, files);
    forall d, r | 0 <= d < |src.contents| && n.MatchAt(src.contents[d], r)
      ensures r in node.iter.Offers(d) <==> OfferedIn(sh, s, src.contents[d], r) && InSymbol(src, d, r, |Tokens(s.pattern)|)
    {
      SymbolOffers(sh, s, src, it, d);
    }
  }

  lemma TrimFacts(secs: seq<Section>, src: Source)
    requires SectionsConverted(secs, src) && |Flat(Tokenize(src.contents))| <= MaxU32
    ensures SectionsOk(secs, U32Ends(Tokenize(src.contents)))
    ensures Nondecreasing(Ends(Tokenize(src.contents)))
  {
    hide Flat, Start;
    var parts := SectionParts(secs, src);
    SectionsAreOk(parts, Tokenize(src.contents));
    EndsNondecreasing(Tokenize(src.contents));
  }

  lemma OffersInside(it: PlainIterator, docs: Docs, n: nat)
    requires (forall d, r :: 0 <= d < |docs| && r in it.Offers(d) ==> 0 <= r && r + n <= |docs[d]|) && |Flat(docs)| <= MaxU32
    ensures forall d, r :: 0 <= d < |docs| && r in it.Offers(d) ==>
              0 <= r && StartOf(U32Ends(docs), d) + r + n <= U32Ends(docs)[d]
  {
    hide PlainIterator.Offers, Flat;
    forall d | 0 <= d < |docs| ensures U32Ends(docs)[d] == StartOf(U32Ends(docs), d) + |docs[d]| {
      EndsAreStarts(docs, d);
      StartOfIsStart(docs, d);
    }
  }
}
