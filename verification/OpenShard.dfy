/** From a builder through a file to a shard that can be searched. */
module OpenShard {
  import opened Machine
  import opened Utf8
  import opened Ngrams
  import opened Corpus
  import opened DeltaCodec
  import opened Postings
  import opened RuneLookup
  import opened ContentMatch
  import opened NgramSearch
  import opened TrigramLookup
  import opened SubstringMatching
  import opened SectionFile
  import opened ShardIndex
  import opened ShardBuilder
  import W = ShardWriter
  import R = ShardReader
  import T = TableOfContents
  import Query
  import RQ = RegexpQuery
  import M = QueryMap
  import E = ShardEval
  import QT = QueryTree
  import S = ShardSearch
  import A = MatchAtoms
  import L = LineAssembly
  import D = DocumentMatches
  import MT = MatchTree
  import SearchLoop

  /** The two JSON documents of a shard. */
  datatype IndexMetadata = IndexMetadata(formatVersion: int, plainASCII: bool, languageMap: map<string, nat>)

  const IndexFormatVersion: int := 15

  datatype Repository = Repository(name: string, branches: seq<string>)

  /** JSON, Go's case tables and its regular expressions: what the model takes from outside. */
  datatype Outside = Outside(
    encodeMeta: IndexMetadata -> seq<byte>, decodeMeta: seq<byte> -> Result<IndexMetadata>,
    encodeRepo: Repository -> seq<byte>, decodeRepo: seq<byte> -> Result<Repository>,
    tables: CaseTables, find: (Query.Regexp, bool, seq<byte>) -> seq<A.Span>)

  // ----- one kind of text -----

  /** What a postings builder hands to the writer. */
  function TextTablesOf(texts: seq<seq<byte>>, p: PostingsBuilder): W.TextTables
    reads p
  {
    W.TextTables(texts, p.postings, p.runeOffsets, p.endRunes)
  }

  lemma {:induction false} BytesAreJoined(files: seq<seq<byte>>)
    ensures Bytes(files) == JoinAll(files)
  {
    if files != [] {
      BytesAreJoined(files[..|files| - 1]);
    }
  }

  /** The blobs of a valid builder are the posting lists. */
  lemma BlobsAreDeltas(p: PostingsBuilder, ng: Ngram)
    requires p.Valid()
    ensures Blob(p.postings, ng) == Deltas(CorpusHits(Tokenize(p.files), ng), 0)
  {
    hide CorpusHits, Deltas;
    assert HoldsAll(p.postings, p.lastOffsets, HitsOf(Tokenize(p.files)));
    assert Postings.Holds(Blob(p.postings, ng), LastOffset(p.lastOffsets, ng), HitsOf(Tokenize(p.files))(ng));
  }

  /** Reading a blob gives back the list. */
  lemma BlobParses(p: PostingsBuilder, ng: Ngram)
    requires p.Valid()
    ensures Parse(Blob(p.postings, ng), 0).Some? && Parse(Blob(p.postings, ng), 0).value == CorpusHits(Tokenize(p.files), ng)
  {
    hide CorpusHits, Deltas, Parse;
    BlobsAreDeltas(p, ng);
    var list := PostingsOf(Tokenize(p.files), ng);
    ParseDeltas(list, 0);
  }

  /** The sum of sizes over distinct trigrams is at most the sum over all keys. */
  function SizeSum(f: Ngram -> nat, vs: seq<Ngram>): nat {
    if vs == [] then 0 else SizeSum(f, vs[..|vs| - 1]) + f(vs[|vs| - 1])
  }

  lemma {:induction false} SizeSumRemove(f: Ngram -> nat, ks: seq<Ngram>, j: nat)
    requires j < |ks|
    ensures SizeSum(f, ks) == SizeSum(f, ks[..j] + ks[j + 1..]) + f(ks[j])
  {
    var n := |ks| - 1;
    if j == n {
      assert ks[..j] + ks[j + 1..] == ks[..n];
    } else {
      SizeSumRemove(f, ks[..n], j);
      var less := ks[..j] + ks[j + 1..];
      assert less[..|less| - 1] == ks[..n][..j] + ks[..n][j + 1..];
    }
  }

  lemma {:induction false} SizeSumBound(f: Ngram -> nat, vs: seq<Ngram>, ks: seq<Ngram>)
    requires NoDuplicates(vs) && forall v: Ngram :: v in vs && f(v) > 0 ==> v in ks
    ensures SizeSum(f, vs) <= SizeSum(f, ks)
    decreases |vs|
  {
    if vs != [] {
      var n := |vs| - 1;
      var v, init := vs[n], vs[..n];
      assert vs == init + [v];
      assert NoDuplicates(init) && v !in init;
      if f(v) == 0 {
        SizeSumBound(f, init, ks);
      } else {
        var j :| 0 <= j < |ks| && ks[j] == v;
        var less := ks[..j] + ks[j + 1..];
        SizeSumRemove(f, ks, j);
        forall x: Ngram | x in init && f(x) > 0 ensures x in less {
          var k :| 0 <= k < |ks| && ks[k] == x;
          assert if k < j then less[k] == x else less[k - 1] == x;
        }
        SizeSumBound(f, init, less);
      }
    }
  }

  /** All blobs together are as long as the sum of their sizes. */
  lemma {:induction false} SizeOfItems(m: map<Ngram, seq<byte>>, keys: seq<Ngram>, f: Ngram -> nat)
    requires forall ng: Ngram :: ng in keys ==> ng in m && f(ng) <= |m[ng]|
    ensures SizeSum(f, keys) <= |JoinAll(W.PostingItems(m, keys))|
  {
    if keys != [] {
      var n := |keys| - 1;
      SizeOfItems(m, keys[..n], f);
      assert W.PostingItems(m, keys)[..n] == W.PostingItems(m, keys[..n]);
      assert keys[n] in keys;
    }
  }

  lemma {:induction false} SumIsSizeSum(t: PostingTable, vs: seq<Ngram>, f: Ngram -> nat)
    requires forall ng: Ngram :: t.Frequency(ng) == f(ng)
    ensures SumFrequency(t, vs) == SizeSum(f, vs)
  {
    if vs != [] {
      SumIsSizeSum(t, vs[..|vs| - 1], f);
    }
  }

  /** Posting lists that fit into the file have frequencies that can be added in 32 bits. */
  lemma FrequenciesAreSmall(t: PostingTable, m: map<Ngram, seq<byte>>, keys: seq<Ngram>)
    requires W.AreKeys(keys, m) && |JoinAll(W.PostingItems(m, keys))| < MaxU32
    requires forall ng: Ngram :: t.Frequency(ng) <= if ng in m then |m[ng]| else 0
    ensures FrequenciesFit(t)
  {
    hide JoinAll, PostingTable.Frequency, W.PostingItems;
    var f := (ng: Ngram) => t.Frequency(ng);
    assert forall i :: 0 <= i < |keys| ==> keys[i] in keys;
    forall vs: seq<Ngram> | NoDuplicates(vs) ensures SumFrequency(t, vs) < MaxU32 {
      SumIsSizeSum(t, vs, f);
      SizeSumBound(f, vs, keys);
      SizeOfItems(m, keys, f);
    }
  }

  /** The tables of a valid builder index its texts. */
  lemma TextIndexed(p: PostingsBuilder, texts: seq<seq<byte>>, t: TextIndex, plainASCII: bool)
    requires p.Valid() && p.files == texts && |texts| <= 0x8000_0000
    requires AllClosed(texts)
    requires t.table.runeOffsets == p.runeOffsets && t.table.endRunes == p.endRunes && t.table.bounds == Relative(texts)
    requires JoinAll(texts) <= t.table.mapped && |t.table.mapped| <= MaxU32
    requires plainASCII ==> p.isPlainASCII
    requires !plainASCII && !t.table.fileName ==> WindowsFit(texts) && |JoinAll(texts)| + ContentWindow <= |t.table.mapped|
    requires t.postings.Holds(Tokenize(texts)) && FrequenciesFit(t.postings)
    ensures t.Indexes(texts, plainASCII)
  {
    hide PostingTable.Holds, FrequenciesFit, WindowsFit, AllClosed, Flat, Tokenize, Sampled, Narrow, JoinAll, Bytes, Ends, HoldsAll;
    BytesAreJoined(texts);
    forall d | 0 <= d < |t.table.bounds| ensures t.table.bounds[d] == |Bytes(texts[..d])| {
      BytesAreJoined(texts[..d]);
    }
    if !plainASCII && !t.table.fileName {
      WindowsRead(t.table, texts);
    }
  }

  lemma WindowsRead(t: TextTable, texts: seq<seq<byte>>)
    requires |Bytes(texts)| + ContentWindow <= |t.mapped|
    ensures ReadsFit(t, texts)
  {
    hide Flat, Tokenize, Bytes, Width;
    forall p | 0 <= p < |Flat(Tokenize(texts))| ensures Reads(t, texts, p) {
      SampleInside(texts, p);
    }
  }

  /** Compressed lists, as they are in the file. */
  lemma BlobTableHolds(p: PostingsBuilder, blobs: map<Ngram, seq<byte>>)
    requires p.Valid() && forall ng: Ngram :: Blob(blobs, ng) == Blob(p.postings, ng)
    ensures Blobs(blobs).Holds(Tokenize(p.files))
  {
    hide CorpusHits, Deltas, PostingsBuilder.Valid;
    forall ng: Ngram ensures Blob(blobs, ng) == Deltas(CorpusHits(Tokenize(p.files), ng), 0) {
      BlobsAreDeltas(p, ng);
    }
  }

  /** Decoded lists, for the names. */
  lemma ListTableHolds(p: PostingsBuilder, lists: map<Ngram, seq<u32>>)
    requires p.Valid() && R.ListsRead(lists, p.postings)
    ensures Lists(lists).Holds(Tokenize(p.files))
    ensures forall ng: Ngram :: Lists(lists).Frequency(ng) <= if ng in p.postings then |p.postings[ng]| else 0
  {
    hide CorpusHits, Deltas, PostingsBuilder.Valid, Parse;
    forall ng: Ngram
      ensures Lists(lists).List(ng) == CorpusHits(Tokenize(p.files), ng)
      ensures Lists(lists).Frequency(ng) <= if ng in p.postings then |p.postings[ng]| else 0
    {
      BlobParses(p, ng);
      BlobsAreDeltas(p, ng);
      DeltasNonempty(CorpusHits(Tokenize(p.files), ng), 0);
      ParseNothing();
    }
  }

  lemma ParseNothing()
    ensures Parse([], 0) == Some([])
  {
  }

  // ----- the shard -----

  /** branchIDs: one bit for each branch, in order; a name that is repeated keeps the last one (read.go:237-241). */
  function BranchIDs(branches: seq<string>): map<string, bv64> {
    if branches == [] then map[]
    else var n := |branches| - 1; BranchIDs(branches[..n])[branches[n] := if n < 64 then Bit(n) else 0]
  }

  /** The blobs of the trigrams, read from their sections. */
  function BlobsOf(d: R.IndexData): map<Ngram, seq<byte>> {
    map ng | ng in d.ngrams && ReadAt(d.file, d.ngrams[ng]).Ok? :: ReadAt(d.file, d.ngrams[ng]).value
  }

  /** The tail of the file from an offset on: the memory that a slice into the file can be extended over. */
  function TailFrom(file: seq<byte>, off: u32): seq<byte> {
    if off <= |file| then file[off..] else []
  }

  function NewlinesOf(d: R.IndexData, i: nat): seq<u32> {
    if i + 1 < |d.newlinesIndex| && R.ReadNewlines(d, i).Ok? then R.ReadNewlines(d, i).value else []
  }

  function ShardOf(d: R.IndexData, meta: IndexMetadata, repo: Repository, o: Outside): Shard {
    Shard(repo.name, meta.languageMap, seq(|d.languages|, i requires 0 <= i < |d.languages| => d.languages[i] as nat),
          BranchIDs(repo.branches), seq(|d.fileBranchMasks|, i requires 0 <= i < |d.fileBranchMasks| => d.fileBranchMasks[i] as bv64),
          TextIndex(Blobs(BlobsOf(d)), TextTable(d.runeOffsets, d.fileEndRunes, d.boundaries, TailFrom(d.file, d.boundariesStart), false)),
          TextIndex(Lists(d.fileNameNgrams),
                    TextTable(d.fileNameRuneOffsets, d.fileNameEndRunes, d.fileNameIndex, TailFrom(d.file, d.fileNamesStart), true)),
          meta.plainASCII, d.runeDocSections, seq(|d.fileBranchMasks|, i requires 0 <= i => NewlinesOf(d, i)), o.tables, o.find)
  }

  // ----- writing -----

  /** Numbers that stay small in any shard that fits into a file. */
  ghost predicate Small(b: IndexBuilder)
    reads b
  {
    && |b.contentStrings| <= 0x8000_0000 && 2 * |b.runeDocSections| <= MaxU32
    && forall i :: 0 <= i < |b.docSections| ==> 2 * |b.docSections[i]| <= MaxU32
  }

  /** Language codes fit into a byte. */
  function LanguageBytes(b: IndexBuilder): (r: seq<byte>)
    requires b.Valid()
    reads b, b.contentPostings, b.namePostings
    ensures |r| == |b.languages| && forall i :: 0 <= i < |r| ==> r[i] == b.languages[i]
  {
    seq(|b.languages|, i requires 0 <= i < |b.languages| reads b, b.contentPostings, b.namePostings requires b.Valid() => b.languages[i] as byte)
  }

  function MaskNumbers(masks: seq<bv64>): (r: seq<u64>)
    ensures |r| == |masks| && forall i :: 0 <= i < |r| ==> r[i] == masks[i] as int
  {
    seq(|masks|, i requires 0 <= i < |masks| => masks[i] as u64)
  }

  function TablesOf(b: IndexBuilder, metaData: seq<byte>, repoMetaData: seq<byte>): W.Tables
    requires b.Valid()
    reads b, b.contentPostings, b.namePostings
  {
    W.Tables(TextTablesOf(b.contentStrings, b.contentPostings), TextTablesOf(b.nameStrings, b.namePostings),
             b.docSections, b.runeDocSections, MaskNumbers(b.branchMasks), b.subRepos, b.checksums, LanguageBytes(b),
             metaData, repoMetaData)
  }

  lemma TextSane(p: PostingsBuilder, texts: seq<seq<byte>>)
    requires p.Valid() && p.files == texts && |texts| <= 0x8000_0000
    ensures W.TextSane(TextTablesOf(texts, p))
  {
    hide HoldsAll, Narrow, Flat, Tokenize;
    forall i | 0 <= i < |texts| ensures |texts[i]| <= MaxU32 {
      BytesAreJoined(texts);
      JoinSplit(texts, i);
    }
  }

  lemma BuilderSane(b: IndexBuilder, metaData: seq<byte>, repoMetaData: seq<byte>)
    requires b.Valid() && Small(b)
    ensures W.Sane(TablesOf(b, metaData, repoMetaData)) && R.Decodable(TablesOf(b, metaData, repoMetaData))
  {
    hide PostingsBuilder.Valid, Parse, W.TextSane, PartsOf, LanguagesOk, MasksOk;
    TextSane(b.contentPostings, b.contentStrings);
    TextSane(b.namePostings, b.nameStrings);
    forall ng: Ngram | ng in b.namePostings.postings ensures Parse(b.namePostings.postings[ng], 0).Some? {
      BlobParses(b.namePostings, ng);
    }
  }

  function MetadataOf(b: IndexBuilder): IndexMetadata
    reads b, b.contentPostings, b.namePostings
  {
    IndexMetadata(IndexFormatVersion, b.contentPostings.isPlainASCII && b.namePostings.isPlainASCII, b.languageMap)
  }

  /** Write, with the metadata of the builder. */
  method WriteShard(b: IndexBuilder, name: string, o: Outside) returns (file: seq<byte>, ghost l: W.Layout)
    requires b.Valid() && Small(b)
    ensures W.Holds(file, TablesOf(b, o.encodeMeta(MetadataOf(b)), o.encodeRepo(Repository(name, b.branches))), l)
    ensures exists m :: W.Holds(file, TablesOf(b, o.encodeMeta(MetadataOf(b)), o.encodeRepo(Repository(name, b.branches))), m)
  {
    hide W.Holds, IndexBuilder.Valid;
    var meta, repo := o.encodeMeta(MetadataOf(b)), o.encodeRepo(Repository(name, b.branches));
    BuilderSane(b, meta, repo);
    file, l := W.Write(TablesOf(b, meta, repo));
  }

  // ----- opening -----

  /** The regular expression engine and the case tables agree, for any shard that uses them. */
  ghost predicate EngineAgrees(o: Outside, other: RQ.OtherOps) {
    forall sh: Shard :: sh.tables == o.tables && sh.find == o.find ==> EngineOk(sh, other)
  }

  /** What has to be true of the documents and of what comes from outside for searches to be exact. */
  ghost predicate Searches(b: IndexBuilder, name: string, o: Outside, other: RQ.OtherOps, file: seq<byte>)
    requires b.Valid()
    reads b, b.contentPostings, b.namePostings
  {
    && Small(b)
    && AllClosed(b.contentStrings) && AllClosed(b.nameStrings)
    && (MetadataOf(b).plainASCII || (WindowsFit(b.contentStrings) && |Bytes(b.contentStrings)| + ContentWindow <= |file|))
    && |file| <= MaxU32
    && o.decodeMeta(o.encodeMeta(MetadataOf(b))) == Ok(MetadataOf(b))
    && o.decodeRepo(o.encodeRepo(Repository(name, b.branches))) == Ok(Repository(name, b.branches))
    && o.tables.Ok() && EngineAgrees(o, other)
  }

  /** The posting sections are smaller than the file. */
  lemma PostingsFit(file: seq<byte>, t: W.Tables, l: W.Layout)
    requires W.Holds(file, t, l) && |file| <= MaxU32
    ensures W.AreKeys(l.keys, t.contents.postings) && |JoinAll(W.PostingItems(t.contents.postings, l.keys))| < MaxU32
    ensures W.AreKeys(l.nameKeys, t.names.postings) && |JoinAll(W.PostingItems(t.names.postings, l.nameKeys))| < MaxU32
  {
    hide JoinAll, W.PostingsAt, W.HoldsCompound, W.HoldsSimple, W.AreNewlineItems, W.SectionItems, W.RestAt, T.TocBytes, T.SimpleBytes, U64s;
    Shorter(l.pieces, 8);
    Shorter(l.pieces, 15);
    PostingsPiece(l.pieces, 7, t.contents, l.keys, l.toc.ngramText, l.toc.postings, l.toc.runeOffsets, l.toc.fileEndRunes);
    PostingsPiece(l.pieces, 14, t.names, l.nameKeys, l.toc.nameNgramText, l.toc.namePostings, l.toc.nameRuneOffsets, l.toc.nameEndRunes);
  }

  lemma PostingsPiece(pieces: seq<seq<byte>>, k: nat, t: W.TextTables, keys: seq<Ngram>,
                      ngramText: Simple, postings: Compound, runeOffsets: Simple, endRunes: Simple)
    requires W.PostingsAt(pieces, k, t, keys, ngramText, postings, runeOffsets, endRunes)
    ensures W.AreKeys(keys, t.postings) && k + 2 < |pieces| && pieces[k + 1] == JoinAll(W.PostingItems(t.postings, keys))
  {
    hide JoinAll, W.HoldsSimple, U64s, SizedDeltas, W.AreKeys, SectionOf, OffsetsFrom, U32s;
  }

  lemma Shorter(pieces: seq<seq<byte>>, k: nat)
    requires |pieces| == 27 && |pieces[26]| == 8 && k < 26
    ensures |pieces[k]| < |JoinAll(pieces)|
  {
    hide JoinAll;
    JoinSplit(pieces, 26);
    JoinSplit(pieces[..26], k);
  }

  lemma BlobsSame(d: R.IndexData, postings: map<Ngram, seq<byte>>)
    requires R.NgramsRead(d.ngrams, d.file, postings)
    ensures forall ng: Ngram :: Blob(BlobsOf(d), ng) == Blob(postings, ng)
  {
    hide ReadAt;
  }

  lemma ContentsIndexed(d: R.IndexData, b: IndexBuilder, t: W.Tables, l: W.Layout, plainASCII: bool)
    requires b.Valid() && Small(b) && t.contents == TextTablesOf(b.contentStrings, b.contentPostings)
    requires R.SameTexts(d, t) && R.SamePostings(d, t) && R.SameTables(d, t) && W.Holds(d.file, t, l)
    requires |d.file| <= MaxU32
    requires AllClosed(b.contentStrings)
    requires (plainASCII ==> b.contentPostings.isPlainASCII) && (plainASCII || (WindowsFit(b.contentStrings) && |Bytes(b.contentStrings)| + ContentWindow <= |d.file|))
    ensures TextIndex(Blobs(BlobsOf(d)), TextTable(d.runeOffsets, d.fileEndRunes, d.boundaries, TailFrom(d.file, d.boundariesStart), false))
              .Indexes(b.contentStrings, plainASCII)
  {
    hide PostingsBuilder.Valid, PartsOf, LanguagesOk, MasksOk, WindowsFit, AllClosed, W.Holds, JoinAll, TextIndex.Indexes, FrequenciesFit,
      PostingTable.Holds, R.NgramsRead, R.ListsRead, R.ReadContents, R.ReadNewlines, R.ReadDocSections, BlobsOf, Bytes;
    var p := b.contentPostings;
    BytesAreJoined(b.contentStrings);
    BlobsSame(d, p.postings);
    BlobTableHolds(p, BlobsOf(d));
    PostingsFit(d.file, t, l);
    BlobSizes(BlobsOf(d), p.postings);
    FrequenciesAreSmall(Blobs(BlobsOf(d)), p.postings, l.keys);
    var ix := TextIndex(Blobs(BlobsOf(d)),
      TextTable(d.runeOffsets, d.fileEndRunes, d.boundaries, TailFrom(d.file, d.boundariesStart), false));
    TextIndexed(p, b.contentStrings, ix, plainASCII);
  }

  lemma BlobSizes(blobs: map<Ngram, seq<byte>>, postings: map<Ngram, seq<byte>>)
    requires forall ng: Ngram :: Blob(blobs, ng) == Blob(postings, ng)
    ensures forall ng: Ngram :: Blobs(blobs).Frequency(ng) <= if ng in postings then |postings[ng]| else 0
  {
  }

  lemma NamesIndexed(d: R.IndexData, b: IndexBuilder, t: W.Tables, l: W.Layout, plainASCII: bool)
    requires b.Valid() && Small(b) && t.names == TextTablesOf(b.nameStrings, b.namePostings)
    requires R.SameTexts(d, t) && R.SamePostings(d, t) && R.SameTables(d, t) && W.Holds(d.file, t, l) && |d.file| <= MaxU32
    requires AllClosed(b.nameStrings)
    requires plainASCII ==> b.namePostings.isPlainASCII
    ensures TextIndex(Lists(d.fileNameNgrams), TextTable(d.fileNameRuneOffsets, d.fileNameEndRunes, d.fileNameIndex,
                                                         TailFrom(d.file, d.fileNamesStart), true))
              .Indexes(b.nameStrings, plainASCII)
  {
    hide PostingsBuilder.Valid, PartsOf, LanguagesOk, MasksOk, WindowsFit, AllClosed, W.Holds, JoinAll, TextIndex.Indexes, FrequenciesFit,
      PostingTable.Holds, R.NgramsRead, R.ListsRead, R.ReadContents, R.ReadNewlines, R.ReadDocSections, Bytes;
    var p := b.namePostings;
    ListTableHolds(p, d.fileNameNgrams);
    PostingsFit(d.file, t, l);
    FrequenciesAreSmall(Lists(d.fileNameNgrams), p.postings, l.nameKeys);
    var ix := TextIndex(Lists(d.fileNameNgrams), TextTable(d.fileNameRuneOffsets, d.fileNameEndRunes, d.fileNameIndex,
                                                           TailFrom(d.file, d.fileNamesStart), true));
    TextIndexed(p, b.nameStrings, ix, plainASCII);
  }

  lemma MasksBack(masks: seq<bv64>, i: nat)
    requires i < |masks|
    ensures MaskNumbers(masks)[i] as bv64 == masks[i]
  {
  }

  /** What was built, written and read is the index of the documents. */
  lemma ReadShardIsIndex(d: R.IndexData, b: IndexBuilder, name: string, o: Outside, other: RQ.OtherOps, l: W.Layout)
    requires b.Valid() && Searches(b, name, o, other, d.file)
    requires var t := TablesOf(b, o.encodeMeta(MetadataOf(b)), o.encodeRepo(Repository(name, b.branches)));
             R.Same(d, t) && W.Holds(d.file, t, l)
    ensures var sh := ShardOf(d, MetadataOf(b), Repository(name, b.branches), o);
            IndexOf(sh, b.Documents(), other) && sh.languages == b.languages && sh.branchMasks == b.branchMasks
  {
    hide PostingsBuilder.Valid, LanguagesOk, WindowsFit, AllClosed, W.Holds, TextIndex.Indexes, R.SameTexts, R.SamePostings, EngineOk,
      CaseTables.Ok, SectionsConverted, NewlinesKnown, NewlinesOf, DocSectionsConverted, JoinAll, Bytes, BranchIDs, BlobsOf;
    var meta := MetadataOf(b);
    var t := TablesOf(b, o.encodeMeta(meta), o.encodeRepo(Repository(name, b.branches)));
    ContentsIndexed(d, b, t, l, meta.plainASCII);
    NamesIndexed(d, b, t, l, meta.plainASCII);
    var sh := ShardOf(d, meta, Repository(name, b.branches), o);
    assert EngineOk(sh, other);
    forall i | 0 <= i < |b.branchMasks| ensures sh.branchMasks[i] == b.branchMasks[i] {
      MasksBack(b.branchMasks, i);
    }
    assert sh.branchMasks == b.branchMasks;
    assert sh.languages == b.languages;
    PartsConverted(b.parts, b.runeDocSections, b.Documents());
    NewlinesBack(d, t, sh, b.Documents());
  }

  lemma NewlinesBack(d: R.IndexData, t: W.Tables, sh: Shard, src: Source)
    requires R.SameTexts(d, t) && t.contents.texts == src.contents && |sh.newlines| == |src.contents|
    requires forall i :: 0 <= i < |sh.newlines| ==> sh.newlines[i] == NewlinesOf(d, i)
    ensures NewlinesKnown(sh, src)
  {
    hide JoinAll, R.ReadContents, R.ReadNewlines, R.ReadDocSections, L.AreNewlines;
  }

  lemma PartsConverted(parts: seq<seq<Section>>, secs: seq<Section>, src: Source)
    requires PartsOf(parts, secs, src)
    ensures SectionsConverted(secs, src)
  {
    hide DocSectionsConverted, JoinAll;
  }

  ghost function WrittenTables(b: IndexBuilder, name: string, o: Outside): W.Tables
    requires b.Valid()
    reads b, b.contentPostings, b.namePostings
  {
    TablesOf(b, o.encodeMeta(MetadataOf(b)), o.encodeRepo(Repository(name, b.branches)))
  }

  /** The file was written for this builder. */
  ghost predicate FromBuilder(file: seq<byte>, o: Outside, b: IndexBuilder, name: string, l: W.Layout,
                              other: RQ.OtherOps)
    reads b, b.contentPostings, b.namePostings
  {
    b.Valid() && Searches(b, name, o, other, file) && W.Holds(file, WrittenTables(b, name, o), l)
  }

  /** A shard as Open makes it: the index of the documents, with the repository's tables, for the given case tables and engine. */
  ghost predicate IsOpened(sh: Shard, file: seq<byte>, o: Outside, b: IndexBuilder, name: string, l: W.Layout,
                           other: RQ.OtherOps)
    reads b
  {
    && IndexOf(sh, b.Documents(), other)
    && sh.repoName == name && sh.languageMap == b.languageMap && sh.languages == b.languages
    && sh.branchIDs == BranchIDs(b.branches) && sh.branchMasks == b.branchMasks
    && sh.contents.table.mapped == file && sh.names.table.mapped == TailFrom(file, l.toc.fileNames.data.off)
    && sh.tables == o.tables && sh.find == o.find
    && (sh.plainASCII <==> Narrow(Flat(Tokenize(b.contentStrings))) && Narrow(Flat(Tokenize(b.nameStrings))))
  }

  /** What a query is searched with: the given case tables, the documents that were added and the sizes in the file. */
  ghost function FileScope(file: seq<byte>, o: Outside, b: IndexBuilder, l: W.Layout): Scope
    reads b
  {
    Scope(o.tables, b.Documents(), |TailFrom(file, l.toc.fileNames.data.off)|, |file|)
  }

  lemma OpenedIs(d: R.IndexData, file: seq<byte>, o: Outside, b: IndexBuilder, name: string, l: W.Layout,
                 other: RQ.OtherOps)
    requires FromBuilder(file, o, b, name, l, other)
    requires d.file == file && R.Same(d, WrittenTables(b, name, o)) && d.fileNamesStart == l.toc.fileNames.data.off
    ensures IsOpened(ShardOf(d, MetadataOf(b), Repository(name, b.branches), o), file, o, b, name, l, other)
  {
    hide W.Holds, IndexOf, PostingsBuilder.Valid, R.SamePostings, R.SameTables, PartsOf, LanguagesOk, AllClosed, WindowsFit, BranchIDs,
      EngineAgrees, CaseTables.Ok, Bytes, BlobsOf, JoinAll, MasksOk;
    ReadShardIsIndex(d, b, name, o, other, l);
    assert d.boundariesStart == 0 by { StartsAtZero(d, WrittenTables(b, name, o)); }
    AsciiFlag(b.contentPostings);
    AsciiFlag(b.namePostings);
  }

  lemma AsciiFlag(p: PostingsBuilder)
    requires p.Valid()
    ensures p.isPlainASCII <==> Narrow(Flat(Tokenize(p.files)))
  {
    hide HoldsAll, Sampled, Narrow, Flat, Tokenize, Bytes, Ends;
  }

  lemma StartsAtZero(d: R.IndexData, t: W.Tables)
    requires R.Same(d, t)
    ensures d.boundariesStart == 0
  {
  }

  /** What Open checks of any file: its tables are of one length, and its metadata can be read and has the right version. */
  ghost predicate Checked(d: R.IndexData, meta: IndexMetadata, repo: Repository, o: Outside) {
    && R.Verified(d) && o.decodeMeta(d.metaData) == Ok(meta) && meta.formatVersion == IndexFormatVersion
    && o.decodeRepo(d.repoMetaData) == Ok(repo)
  }

  /** NewSearcher, with the JSON documents. A file that was written for a builder opens as the index of its documents. */
  method Open(file: seq<byte>, o: Outside, ghost b: IndexBuilder, ghost name: string, ghost l: W.Layout,
              ghost other: RQ.OtherOps)
    returns (r: Result<Shard>)
    ensures FromBuilder(file, o, b, name, l, other) ==> r.Ok? && IsOpened(r.value, file, o, b, name, l, other)
    ensures r.Ok? ==> exists d, meta, repo :: Checked(d, meta, repo, o) && r.value == ShardOf(d, meta, repo, o)
  {
    hide FromBuilder, IsOpened, WrittenTables, R.Same, BranchIDs, IndexBuilder.Valid, R.WrittenFor, BlobsOf, TailFrom;
    ghost var good := FromBuilder(file, o, b, name, l, other);
    ghost var t := if good then TablesFor(file, o, b, name, l, other) else NoTables();
    var d := R.NewSearcher(file, t, l);
    if d.Err? {
      return Err(d.reason);
    }
    if good {
      MetadataBack(d.value, t);
      OpenedIs(d.value, file, o, b, name, l, other);
    }
    var meta := o.decodeMeta(d.value.metaData);
    if meta.Err? {
      return Err(meta.reason);
    }
    if meta.value.formatVersion != IndexFormatVersion {
      return Err("wrong version");
    }
    var repo := o.decodeRepo(d.value.repoMetaData);
    if repo.Err? {
      return Err(repo.reason);
    }
    assert Checked(d.value, meta.value, repo.value, o);
    return Ok(ShardOf(d.value, meta.value, repo.value, o));
  }

  ghost function NoTables(): W.Tables {
    var none := W.TextTables([], map[], [], []);
    W.Tables(none, none, [], [], [], [], [], [], [], [])
  }

  /** The tables of the builder, and that they come back from the file. */
  ghost function TablesFor(file: seq<byte>, o: Outside, b: IndexBuilder, name: string, l: W.Layout,
                           other: RQ.OtherOps): (t: W.Tables)
    requires FromBuilder(file, o, b, name, l, other)
    reads b, b.contentPostings, b.namePostings
    ensures b.Valid() && t == WrittenTables(b, name, o) && R.WrittenFor(file, l.toc, t, l) && R.Consistent(t)
    ensures o.decodeMeta(t.metaData) == Ok(MetadataOf(b)) && o.decodeRepo(t.repoMetaData) == Ok(Repository(name, b.branches))
  {
    BuilderSane(b, o.encodeMeta(MetadataOf(b)), o.encodeRepo(Repository(name, b.branches)));
    WrittenTables(b, name, o)
  }

  lemma MetadataBack(d: R.IndexData, t: W.Tables)
    requires R.Same(d, t)
    ensures d.metaData == t.metaData && d.repoMetaData == t.repoMetaData
  {
    hide R.SameTexts, R.SamePostings;
  }

  /**
   * The whole way: documents that were added, written to a file, read back and searched. The answer is the
   * documents on which the query holds, by looking at the documents alone. What simplification leaves of the query
   * has to be suited to the documents, which case tables, documents and file sizes decide.
   */
  method SearchFile(file: seq<byte>, q: Query.Q, stop: nat -> bool, limit: int, o: Outside, ghost b: IndexBuilder, ghost name: string,
                    ghost l: W.Layout, ghost other: RQ.OtherOps)
    returns (r: Result<seq<D.FileMatch>>, cutoff: nat, ghost sh: Shard, ghost looked: seq<u32>, ghost t: MT.Tree)
    requires FromBuilder(file, o, b, name, l, other)
    requires M.AllAtoms(E.SimplifyFor(name, b.languageMap, q), S.Sane(FileScope(file, o, b, l)))
    ensures IsOpened(sh, file, o, b, name, l, other)
    ensures r.Ok? <==> b.contentStrings == [] || M.AllAtoms(E.SimplifyFor(name, b.languageMap, q), QT.Long())
    ensures r.Ok? ==> cutoff <= |b.contentStrings| && S.Answers(SearchLoop.DocsOf(r.value), q, sh, b.Documents(), cutoff)
    ensures r.Ok? ==> S.ShowsAll(r.value, q, sh, b.Documents())
    ensures r.Ok? ==> S.Ran(r.value, cutoff, looked, t, q, sh, b.Documents(), stop, limit)
    ensures r.Ok? && (forall turn :: !stop(turn)) && SearchLoop.LineCount(r.value) < limit ==> cutoff == |b.contentStrings|
  {
    hide FromBuilder, IndexOf, S.Answers, S.ShowsAll, S.Ran, SearchLoop.LineCount, E.SimplifyFor, M.AllAtoms, S.Sane, BranchIDs;
    var shard := Open(file, o, b, name, l, other);
    sh := shard.value;
    r, cutoff, looked, t := S.Search(shard.value, q, stop, limit, b.Documents(), other);
  }

  /** The answer does not depend on which opened shard it is stated with: all of them give a query the same meaning. */
  lemma OneMeaning(sh: Shard, sh': Shard, file: seq<byte>, o: Outside, b: IndexBuilder, name: string, l: W.Layout,
                   other: RQ.OtherOps, q: Query.Q, d: nat)
    requires IsOpened(sh, file, o, b, name, l, other) && IsOpened(sh', file, o, b, name, l, other)
    ensures Query.Holds(q, On(sh, b.Documents(), d)) == Query.Holds(q, On(sh', b.Documents(), d))
    ensures E.ShardSimplify(sh, q) == E.ShardSimplify(sh', q)
    ensures forall m :: S.Counts(sh, b.Documents(), d, q, m) == S.Counts(sh', b.Documents(), d, q, m)
  {
    hide IndexOf, BranchIDs;
    SameMeaning(sh, sh', b.Documents(), q, d);
    forall m ensures S.Counts(sh, b.Documents(), d, q, m) == S.Counts(sh', b.Documents(), d, q, m) {
      SameCounts(sh, sh', b.Documents(), q, d, m);
    }
  }

  /** The parts of a shard that give atoms their meaning. */
  ghost predicate SameTables(sh: Shard, sh': Shard) {
    && sh.repoName == sh'.repoName && sh.languageMap == sh'.languageMap && sh.languages == sh'.languages
    && sh.branchIDs == sh'.branchIDs && sh.branchMasks == sh'.branchMasks && sh.tables == sh'.tables && sh.find == sh'.find
  }

  lemma SameMeaning(sh: Shard, sh': Shard, src: Source, q: Query.Q, d: nat)
    requires SameTables(sh, sh')
    ensures Query.Holds(q, On(sh, src, d)) == Query.Holds(q, On(sh', src, d))
  {
    var env, env' := On(sh, src, d), On(sh', src, d);
    var same := (a: Query.Q) => env(a) == env'(a);
    forall a: Query.Q | a.IsAtom() ensures same(a) {
      SameAtom(sh, sh', src, a, d);
    }
    E.AnyAtoms(q, same);
    M.MeaningsAgree(q, env, env');
  }

  lemma SameAtom(sh: Shard, sh': Shard, src: Source, a: Query.Q, d: nat)
    requires SameTables(sh, sh')
    ensures AtomHolds(sh, src, d, a) == AtomHolds(sh', src, d, a)
  {
    hide Needle.FoundIn, Needle.MatchAt, InSymbol, IsSubstring, A.Overlaps;
    assert forall s :: NeedleOf(sh, s) == NeedleOf(sh', s);
  }

  lemma {:induction false} SameCounts(sh: Shard, sh': Shard, src: Source, q: Query.Q, d: nat, m: Match)
    requires SameTables(sh, sh')
    ensures S.Counts(sh, src, d, q, m) == S.Counts(sh', src, d, q, m)
    decreases q, 1
  {
    hide S.AtomMatch, On;
    if q.And? || q.Or? {
      SameCountsList(sh, sh', src, q.children, d, m);
    } else if q.IsAtom() {
      SameAtomMatch(sh, sh', src, q, d, m);
    }
  }

  lemma {:induction false} SameCountsList(sh: Shard, sh': Shard, src: Source, cs: seq<Query.Q>, d: nat, m: Match)
    requires SameTables(sh, sh')
    ensures S.AnyCounts(sh, src, d, cs, m) == S.AnyCounts(sh', src, d, cs, m)
    decreases cs, 0
  {
    hide S.Counts, On, Query.Holds;
    forall i | 0 <= i < |cs|
      ensures Query.Holds(cs[i], On(sh, src, d)) == Query.Holds(cs[i], On(sh', src, d))
      ensures S.Counts(sh, src, d, cs[i], m) == S.Counts(sh', src, d, cs[i], m)
    {
      SameMeaning(sh, sh', src, cs[i], d);
      SameCounts(sh, sh', src, cs[i], d, m);
    }
  }

  lemma SameAtomMatch(sh: Shard, sh': Shard, src: Source, a: Query.Q, d: nat, m: Match)
    requires SameTables(sh, sh')
    ensures S.AtomMatch(sh, src, d, a, m) == S.AtomMatch(sh', src, d, a, m)
  {
    hide Needle.MatchAt, Needle.MatchSize, InSymbol, Tokens, Offset, SpanOf;
    assert forall s :: NeedleOf(sh, s) == NeedleOf(sh', s);
    assert forall s, text, r :: MatchFrom(sh, s, text, r, m) == MatchFrom(sh', s, text, r, m);
  }

  // ----- what the small atoms mean -----

  /** A language query holds on the documents that were added with that language. */
  lemma LanguageMeaning(sh: Shard, src: Source, codes: map<string, nat>, docLanguages: seq<string>, language: string, d: nat)
    requires LanguagesOk(codes, sh.languages, docLanguages) && sh.languageMap == codes
    requires d < |src.contents| == |src.names| == |sh.languages|
    ensures AtomHolds(sh, src, d, Query.Language(language)) <==> docLanguages[d] == language
  {
    LanguageSelects(codes, sh.languages, docLanguages, language, d);
  }

  /** The last place of a name. */
  lemma {:induction false} BranchIDIs(branches: seq<string>, br: string)
    ensures br in BranchIDs(branches) <==> br in branches
    ensures br in branches ==> exists i :: LastPlace(branches, br, i) && BranchIDs(branches)[br] == if i < 64 then Bit(i) else 0
  {
    hide Bit;
    if branches != [] {
      var n := |branches| - 1;
      var init := branches[..n];
      assert branches == init + [branches[n]];
      BranchIDIs(init, br);
      if br == branches[n] {
        assert LastPlace(branches, br, n);
      } else if br in branches {
        var i :| LastPlace(init, br, i) && BranchIDs(init)[br] == if i < 64 then Bit(i) else 0;
        assert LastPlace(branches, br, i);
      }
    }
  }

  ghost predicate LastPlace(branches: seq<string>, br: string, i: nat) {
    i < |branches| && branches[i] == br && forall j :: i < j < |branches| ==> branches[j] != br
  }

  /** The name occurs once. */
  ghost predicate Once(branches: seq<string>, i: nat)
    requires i < |branches|
  {
    forall j :: 0 <= j < |branches| && j != i ==> branches[j] != branches[i]
  }

  /**
   * A branch query holds on the documents that were added with a branch whose name contains it and occurs once in the
   * list of branches: of a repeated name the builder takes the first place and the reader the last. HEAD is the first branch.
   */
  lemma BranchMeaning(sh: Shard, src: Source, branches: seq<string>, docBranches: seq<seq<string>>, pattern: string, d: nat)
    requires MasksOk(branches, sh.branchMasks, docBranches) && sh.branchIDs == BranchIDs(branches)
    requires d < |src.contents| == |src.names| == |sh.branchMasks| && pattern != "" && branches != []
    ensures AtomHolds(sh, src, d, Query.Branch(pattern)) <==>
            if pattern == "HEAD" then branches[0] in docBranches[d]
            else exists i :: 0 <= i < |branches| && branches[i] in docBranches[d] && Once(branches, i) && IsSubstring(pattern, branches[i])
  {
    hide IsSubstring, A.Overlaps, MaskOf, Bit, BranchIDs, Once;
    var m := sh.branchMasks[d];
    assert AtomHolds(sh, src, d, Query.Branch(pattern)) == InBranch(sh, pattern, d);
    if pattern == "HEAD" {
      FirstBit();
      BitMeaning(branches, docBranches[d], m, 0);
    } else {
      forall br | br in sh.branchIDs ensures A.Overlaps(m, sh.branchIDs[br]) <==>
                                             exists i :: 0 <= i < |branches| && branches[i] == br && br in docBranches[d] && Once(branches, i)
      {
        NameMeaning(branches, docBranches[d], m, br);
      }
      forall i | 0 <= i < |branches| ensures branches[i] in sh.branchIDs {
        BranchIDIs(branches, branches[i]);
      }
    }
  }

  lemma BitMeaning(branches: seq<string>, names: seq<string>, m: bv64, i: nat)
    requires |branches| <= 64 && i < |branches| && m == MaskOf(branches, names)
    ensures A.Overlaps(m, Bit(i)) <==> branches[i] in names && forall j :: 0 <= j < i ==> branches[j] != branches[i]
  {
    hide A.Overlaps, MaskOf, Bit;
    MaskShows(branches, names, i);
    A.OverlapsSwap(Bit(i), m);
    FirstPlace(branches, i);
  }

  lemma NameMeaning(branches: seq<string>, names: seq<string>, m: bv64, br: string)
    requires |branches| <= 64 && br in BranchIDs(branches) && m == MaskOf(branches, names)
    ensures A.Overlaps(m, BranchIDs(branches)[br]) <==>
            exists i :: 0 <= i < |branches| && branches[i] == br && br in names && Once(branches, i)
  {
    hide A.Overlaps, MaskOf, Bit, BranchIDs;
    BranchIDIs(branches, br);
    var i :| LastPlace(branches, br, i) && BranchIDs(branches)[br] == if i < 64 then Bit(i) else 0;
    BitMeaning(branches, names, m, i);
    if j :| 0 <= j < |branches| && branches[j] == br && br in names && Once(branches, j) {
      assert i == j;
    }
  }

  lemma {:induction false} FirstPlace(branches: seq<string>, i: nat)
    requires i < |branches|
    ensures BranchIndex(branches, branches[i]) == i <==> forall j :: 0 <= j < i ==> branches[j] != branches[i]
  {
    if i > 0 {
      FirstPlace(branches[1..], i - 1);
      assert forall j :: 0 < j < i ==> branches[j] == branches[1..][j - 1];
    }
  }

  lemma FirstBit()
    ensures Bit(0) == 1
  {
  }
}
