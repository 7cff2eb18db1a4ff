/** Reading a shard back (read.go). */
module ShardReader {
  import opened Machine
  import opened Ngrams
  import opened DeltaCodec
  import opened SectionFile
  import opened TableOfContents
  import opened ShardWriter
  import L = LineAssembly

  /** indexData, before the JSON documents are looked into. */
  datatype IndexData = IndexData(
    file: seq<byte>, ngrams: map<Ngram, Simple>,
    newlinesStart: u32, newlinesIndex: seq<u32>, docSectionsStart: u32, docSectionsIndex: seq<u32>,
    runeDocSections: seq<Section>, runeOffsets: seq<u32>, boundariesStart: u32, boundaries: seq<u32>, fileEndRunes: seq<u32>,
    fileNamesStart: u32, fileNameContent: seq<byte>, fileNameIndex: seq<u32>, fileNameNgrams: map<Ngram, seq<u32>>,
    fileNameRuneOffsets: seq<u32>, fileNameEndRunes: seq<u32>, fileBranchMasks: seq<u64>,
    subRepos: seq<u32>, checksums: seq<byte>, languages: seq<byte>, metaData: seq<byte>, repoMetaData: seq<byte>)

  /** Item `i` of a compound section, through its relative index. */
  function ItemSection(start: u32, index: seq<u32>, i: nat): Simple
    requires i + 1 < |index|
  {
    var from: int, to: int := index[i], index[i + 1];
    Simple(Wrap(start + from), Minus(to, from))
  }

  function ReadContents(d: IndexData, i: nat): Result<seq<byte>>
    requires i + 1 < |d.boundaries|
  {
    ReadAt(d.file, ItemSection(d.boundariesStart, d.boundaries, i))
  }

  /** readNewlines; a blob that is not a list of deltas would make the original panic. */
  function ReadNewlines(d: IndexData, i: nat): Result<seq<u32>>
    requires i + 1 < |d.newlinesIndex|
  {
    match ReadAt(d.file, ItemSection(d.newlinesStart, d.newlinesIndex, i))
    case Err(e) => Err(e)
    case Ok(blob) => (match ParseSized(blob) case Some(xs) => Ok(xs) case None => Err("corrupt"))
  }

  function ReadDocSections(d: IndexData, i: nat): Result<seq<Section>>
    requires i + 1 < |d.docSectionsIndex|
  {
    match ReadAt(d.file, ItemSection(d.docSectionsStart, d.docSectionsIndex, i))
    case Err(e) => Err(e)
    case Ok(blob) => (match ParseDocSections(blob) case Some(xs) => Ok(xs) case None => Err("corrupt"))
  }

  // ----- what comes back -----

  /** The lists of file names can be decoded. */
  ghost predicate Decodable(b: Tables) {
    forall ng: Ngram :: ng in b.names.postings ==> Parse(b.names.postings[ng], 0).Some?
  }

  ghost predicate SameTexts(d: IndexData, b: Tables) {
    && d.boundariesStart == 0 && d.boundaries == Relative(b.contents.texts) && d.fileNameIndex == Relative(b.names.texts)
    && |d.newlinesIndex| == |d.boundaries| && |b.contents.texts| == |b.docSections| && |d.docSectionsIndex| == |d.boundaries|
    && d.fileNameContent == JoinAll(b.names.texts)
    && d.boundariesStart + |JoinAll(b.contents.texts)| <= |d.file|
    && JoinAll(b.contents.texts) <= d.file[d.boundariesStart..]
    && d.fileNamesStart + |JoinAll(b.names.texts)| <= |d.file|
    && JoinAll(b.names.texts) <= d.file[d.fileNamesStart..]
    && (forall i :: 0 <= i < |b.contents.texts| ==> ReadContents(d, i) == Ok(b.contents.texts[i]))
    && (forall i :: 0 <= i < |b.contents.texts| ==> ReadNewlines(d, i).Ok? && L.AreNewlines(ReadNewlines(d, i).value, b.contents.texts[i]))
    && (forall i :: 0 <= i < |b.contents.texts| ==> ReadDocSections(d, i) == Ok(b.docSections[i]))
  }

  ghost predicate SamePostings(d: IndexData, b: Tables) {
    NgramsRead(d.ngrams, d.file, b.contents.postings) && ListsRead(d.fileNameNgrams, b.names.postings)
  }

  ghost predicate SameTables(d: IndexData, b: Tables) {
    && d.subRepos == b.subRepos
    && d.runeOffsets == b.contents.runeOffsets && d.fileEndRunes == b.contents.endRunes
    && d.fileNameRuneOffsets == b.names.runeOffsets && d.fileNameEndRunes == b.names.endRunes
    && d.fileBranchMasks == b.branchMasks && d.runeDocSections == b.runeDocSections
    && d.checksums == b.checksums && d.languages == b.languages && d.metaData == b.metaData && d.repoMetaData == b.repoMetaData
  }

  // ----- the five tables -----

  /** Reading a section through the map of read.go:249-261: sections that are equal would share an entry. */
  method ReadKeyed(file: seq<byte>, keys: seq<Simple>, ghost xs: seq<seq<u32>>) returns (r: Result<seq<seq<u32>>>)
    requires |xs| == |keys|
    ensures r.Ok? ==> |r.value| == |keys|
    ensures (forall i, j :: 0 <= i < j < |keys| ==> keys[i] != keys[j]) && (forall i :: 0 <= i < |keys| ==> KeyedAs(file, keys[i], xs[i]))
            ==> r == Ok(xs)
  {
    hide ParseSized, ReadAt;
    ghost var good := (forall i, j :: 0 <= i < j < |keys| ==> keys[i] != keys[j])
                      && (forall i :: 0 <= i < |keys| ==> KeyedAs(file, keys[i], xs[i]));
    var dest: map<Simple, nat> := map[];
    for i := 0 to |keys|
      invariant forall s :: s in dest ==> dest[s] < i && keys[dest[s]] == s
      invariant forall k :: 0 <= k < i ==> keys[k] in dest
    {
      dest := dest[keys[i] := i];
    }
    var tables: seq<seq<u32>> := seq(|keys|, i => []);
    var left := dest.Keys;
    while left != {}
      invariant left <= dest.Keys && |tables| == |keys|
      invariant good ==> forall i :: 0 <= i < |keys| && keys[i] !in left ==> tables[i] == xs[i]
      decreases left
    {
      var s :| s in left;
      left := left - {s};
      assert good ==> KeyedAs(file, s, xs[dest[s]]);
      var blob := ReadAt(file, s);
      if blob.Err? {
        return Err(blob.reason);
      }
      if ParseSized(blob.value).None? {
        return Err("corrupt");
      }
      var table := FromSizedDeltas(blob.value);
      tables := tables[dest[s] := table];
    }
    assert good ==> tables == xs;
    return Ok(tables);
  }

  ghost predicate KeyedAs(file: seq<byte>, s: Simple, xs: seq<u32>) {
    ReadAt(file, s).Ok? && ParseSized(ReadAt(file, s).value) == Some(xs)
  }

  lemma KeyedPiece(pieces: seq<seq<byte>>, k: nat, xs: seq<u32>, s: Simple)
    requires HoldsSimple(pieces, k, SizedDeltas(xs), s) && |JoinAll(pieces)| <= MaxU32 && |xs| <= MaxU32
    ensures KeyedAs(JoinAll(pieces), s, xs) && pieces[k] != []
  {
    hide JoinAll, SizedDeltas, ParseSized;
    ReadPiece(pieces, k);
    ParseSizedDeltas(xs);
    NoParse();
  }

  lemma NoParse()
    ensures ParseSized([]).None?
  {
  }

  // ----- trigrams -----

  /** The loop of read.go:197-204. */
  method ReadNgrams(text: seq<byte>, start: u32, index: seq<u32>, ghost keys: seq<Ngram>) returns (r: Result<map<Ngram, Simple>>)
    ensures text == U64s(keys) && |index| == (if keys == [] then 0 else |keys| + 1) && Increasing(keys) ==>
              r.Ok? && NgramsAre(r.value, start, index, keys)
  {
    hide U64Of, U64Bytes, U64s, NgramsBelow, Increasing;
    var m: map<Ngram, Simple> := map[];
    ghost var good := text == U64s(keys) && |index| == (if keys == [] then 0 else |keys| + 1) && Increasing(keys);
    NoNgrams(start, index, keys);
    var j := 0;
    while 8 * j < |text|
      invariant 0 <= j && (good ==> j <= |keys| && NgramsBelow(m, start, index, keys, j))
    {
      if 8 * j + 8 > |text| || j + 1 >= |index| {
        return Err("corrupt");
      }
      var n := U64Of(text[8 * j..8 * j + 8]);
      if good {
        NgramAt(text, keys, j);
        NgramsStep(m, start, index, keys, j);
      }
      if n >= 0x8000_0000_0000_0000 {
        return Err("not a trigram");
      }
      m := m[n := ItemSection(start, index, j)];
      j := j + 1;
    }
    return Ok(m);
  }

  lemma NoNgrams(start: u32, index: seq<u32>, keys: seq<Ngram>)
    ensures NgramsBelow(map[], start, index, keys, 0)
  {
  }

  lemma NgramAt(text: seq<byte>, keys: seq<Ngram>, j: nat)
    requires text == U64s(keys) && j < |keys|
    ensures |text| == 8 * |keys| && U64Of(text[8 * j..8 * j + 8]) == keys[j]
  {
    hide U64Of, U64Bytes, U64s;
    U64sAt(keys, j);
    U64RoundTrip(keys[j]);
  }

  /** The first `n` trigrams are in the map, with their sections. */
  ghost predicate NgramsBelow(m: map<Ngram, Simple>, start: u32, index: seq<u32>, keys: seq<Ngram>, n: int) {
    && 0 <= n <= |keys| && (n > 0 ==> n + 1 <= |index|)
    && (forall ng: Ngram :: ng in m <==> ng in keys[..n])
    && forall k :: 0 <= k < n ==> keys[k] in m && m[keys[k]] == ItemSection(start, index, k)
  }

  ghost predicate NgramsAre(m: map<Ngram, Simple>, start: u32, index: seq<u32>, keys: seq<Ngram>) {
    NgramsBelow(m, start, index, keys, |keys|)
  }

  lemma NgramsStep(m: map<Ngram, Simple>, start: u32, index: seq<u32>, keys: seq<Ngram>, j: nat)
    requires NgramsBelow(m, start, index, keys, j) && j < |keys| && j + 1 < |index| && Increasing(keys)
    ensures NgramsBelow(m[keys[j] := ItemSection(start, index, j)], start, index, keys, j + 1)
  {
    assert keys[..j + 1] == keys[..j] + [keys[j]];
    assert forall k :: 0 <= k < j ==> keys[k] < keys[j];
  }

  /** The lists of the first `n` trigrams are decoded. */
  ghost predicate ListsBelow(m: map<Ngram, seq<u32>>, postings: map<Ngram, seq<byte>>, keys: seq<Ngram>, n: nat) {
    && n <= |keys| && (forall ng: Ngram :: ng in m <==> ng in keys[..n])
    && forall ng: Ngram :: ng in m ==> ng in postings && Parse(postings[ng], 0) == Some(m[ng])
  }

  lemma ItemSlice(items: seq<seq<byte>>, j: nat)
    requires j < |items|
    ensures 0 <= Relative(items)[j] <= Relative(items)[j + 1] <= |JoinAll(items)|
    ensures JoinAll(items)[Relative(items)[j]..Relative(items)[j + 1]] == items[j]
  {
    hide JoinAll;
    JoinSplit(items, j);
    RelativeStep(items, j);
  }

  /** The loop of read.go:229-235: lists for file names are decoded at once. */
  method ReadNameNgrams(text: seq<byte>, data: seq<byte>, index: seq<u32>, ghost postings: map<Ngram, seq<byte>>, ghost keys: seq<Ngram>)
    returns (r: Result<map<Ngram, seq<u32>>>)
    ensures ListsGood(text, data, index, postings, keys) ==> r.Ok? && ListsBelow(r.value, postings, keys, |keys|)
  {
    hide U64Of, U64Bytes, U64s, ListsBelow, ListsGood, Parse;
    var m: map<Ngram, seq<u32>> := map[];
    ghost var good := ListsGood(text, data, index, postings, keys);
    NoLists(postings, keys);
    var j := 0;
    while 8 * j < |text|
      invariant 0 <= j && (good ==> j <= |keys| && |text| == 8 * |keys| && ListsBelow(m, postings, keys, j))
    {
      if good {
        ListAt(text, data, index, postings, keys, j);
      }
      if 8 * j + 8 > |text| || j + 1 >= |index| || !(index[j] <= index[j + 1] <= |data|) {
        return Err("corrupt");
      }
      var n := U64Of(text[8 * j..8 * j + 8]);
      var blob := data[index[j]..index[j + 1]];
      if n >= 0x8000_0000_0000_0000 || Parse(blob, 0).None? {
        return Err("corrupt");
      }
      var list := FromDeltas(blob);
      if good {
        ListsStep(m, postings, keys, j, list);
      }
      m := m[n := list];
      j := j + 1;
    }
    return Ok(m);
  }

  ghost predicate ListsGood(text: seq<byte>, data: seq<byte>, index: seq<u32>, postings: map<Ngram, seq<byte>>, keys: seq<Ngram>) {
    && AreKeys(keys, postings) && text == U64s(keys) && |text| == 8 * |keys|
    && data == JoinAll(PostingItems(postings, keys)) && index == Relative(PostingItems(postings, keys))
    && forall ng: Ngram :: ng in postings ==> Parse(postings[ng], 0).Some?
  }

  lemma NoLists(postings: map<Ngram, seq<byte>>, keys: seq<Ngram>)
    ensures ListsBelow(map[], postings, keys, 0)
    ensures forall text, data, index :: ListsGood(text, data, index, postings, keys) ==> |text| == 8 * |keys|
  {
  }

  lemma ListAt(text: seq<byte>, data: seq<byte>, index: seq<u32>, postings: map<Ngram, seq<byte>>, keys: seq<Ngram>, j: nat)
    requires ListsGood(text, data, index, postings, keys) && j < |keys|
    ensures keys[j] in postings && U64Of(text[8 * j..8 * j + 8]) == keys[j]
    ensures j + 1 < |index| && index[j] <= index[j + 1] <= |data| && data[index[j]..index[j + 1]] == postings[keys[j]]
    ensures Parse(postings[keys[j]], 0).Some?
  {
    hide U64Of, U64Bytes, U64s, JoinAll, Parse;
    NgramAt(text, keys, j);
    assert keys[j] in keys;
    ItemSlice(PostingItems(postings, keys), j);
  }

  lemma ListsStep(m: map<Ngram, seq<u32>>, postings: map<Ngram, seq<byte>>, keys: seq<Ngram>, j: nat, list: seq<u32>)
    requires ListsBelow(m, postings, keys, j) && j < |keys| && keys[j] in postings && Parse(postings[keys[j]], 0) == Some(list)
    ensures ListsBelow(m[keys[j] := list], postings, keys, j + 1)
  {
    hide Parse;
    assert keys[..j + 1] == keys[..j] + [keys[j]];
  }

  // ----- all of it -----

  /** A file of less than 2^32 bytes that was written for `b`. */
  ghost predicate WrittenFor(file: seq<byte>, toc: Toc, b: Tables, l: Layout) {
    && Holds(file, b, l) && toc == l.toc && |file| <= MaxU32 && Sane(b) && Decodable(b)
    && |b.contents.texts| == |b.docSections| == |b.names.texts|
  }

  /** The sections that are read as they are. */
  lemma PlainSections(file: seq<byte>, toc: Toc, b: Tables, l: Layout)
    requires WrittenFor(file, toc, b, l)
    ensures ReadAt(file, toc.metaData) == Ok(b.metaData) && ReadAt(file, toc.repoMetaData) == Ok(b.repoMetaData)
    ensures ReadAt(file, toc.contentChecksums) == Ok(b.checksums) && ReadAt(file, toc.languages) == Ok(b.languages)
    ensures ReadAt(file, toc.ngramText) == Ok(U64s(l.keys)) && ReadAt(file, toc.nameNgramText) == Ok(U64s(l.nameKeys))
    ensures ReadAt(file, toc.branchMasks) == Ok(U64s(b.branchMasks))
    ensures ReadAt(file, toc.runeDocSections) == Ok(DocSectionBytes(b.runeDocSections)) && 2 * |b.runeDocSections| <= MaxU32
  {
    hide JoinAll, SectionOf, ReadAt, HoldsCompound, AreNewlineItems, TocBytes, SimpleBytes, U64s, DocSectionBytes, SizedDeltas,
      AreKeys, PostingItems, SectionItems;
    var ps := l.pieces;
    ReadPiece(ps, 23);
    ReadPiece(ps, 24);
    ReadPiece(ps, 20);
    ReadPiece(ps, 21);
    ReadPiece(ps, 7);
    ReadPiece(ps, 14);
    ReadPiece(ps, 4);
    ReadPiece(ps, 22);
  }

  /** The five tables that are read through a map have different sections. */
  lemma KeyedSections(file: seq<byte>, toc: Toc, b: Tables, l: Layout)
    requires WrittenFor(file, toc, b, l)
    ensures var keys := [toc.subRepos, toc.runeOffsets, toc.nameRuneOffsets, toc.nameEndRunes, toc.fileEndRunes];
            var xs := [b.subRepos, b.contents.runeOffsets, b.names.runeOffsets, b.names.endRunes, b.contents.endRunes];
            && (forall i, j :: 0 <= i < j < |keys| ==> keys[i] != keys[j])
            && (forall i :: 0 <= i < |keys| ==> KeyedAs(file, keys[i], xs[i]))
  {
    hide JoinAll, SectionOf, HoldsCompound, AreNewlineItems, TocBytes, SimpleBytes, U64s, DocSectionBytes, SizedDeltas,
      AreKeys, PostingItems, SectionItems, KeyedAs;
    var ps := l.pieces;
    KeyedPiece(ps, 19, b.subRepos, toc.subRepos);
    KeyedPiece(ps, 10, b.contents.runeOffsets, toc.runeOffsets);
    KeyedPiece(ps, 17, b.names.runeOffsets, toc.nameRuneOffsets);
    KeyedPiece(ps, 18, b.names.endRunes, toc.nameEndRunes);
    KeyedPiece(ps, 11, b.contents.endRunes, toc.fileEndRunes);
    forall i, j | i in {10, 11, 17, 18, 19} && j in {10, 11, 17, 18, 19} && i < j
      ensures SectionOf(ps, i) != SectionOf(ps, j)
    {
      SectionsDiffer(ps, i, j);
    }
  }

  /** Compound section `c` was written for these items. */
  ghost predicate WrittenItems(file: seq<byte>, c: Compound, items: seq<seq<byte>>) {
    exists pieces: seq<seq<byte>>, k: nat :: file == JoinAll(pieces) && |file| <= MaxU32 && HoldsCompound(pieces, k, items, c)
  }

  lemma CompoundSections(file: seq<byte>, toc: Toc, b: Tables, l: Layout)
    requires WrittenFor(file, toc, b, l)
    ensures WrittenItems(file, toc.fileContents, b.contents.texts) && WrittenItems(file, toc.fileNames, b.names.texts)
    ensures WrittenItems(file, toc.newlines, l.nls) && AreNewlineItems(l.nls, b.contents.texts)
    ensures WrittenItems(file, toc.fileSections, SectionItems(b.docSections))
    ensures AreKeys(l.keys, b.contents.postings) && AreKeys(l.nameKeys, b.names.postings)
    ensures WrittenItems(file, toc.postings, PostingItems(b.contents.postings, l.keys))
    ensures WrittenItems(file, toc.namePostings, PostingItems(b.names.postings, l.nameKeys))
  {
    hide JoinAll, SectionOf, HoldsCompound, HoldsSimple, AreNewlineItems, TocBytes, SimpleBytes, U64s, DocSectionBytes, SizedDeltas,
      PostingItems, SectionItems;
    assert HoldsCompound(l.pieces, 0, b.contents.texts, toc.fileContents);
    assert HoldsCompound(l.pieces, 12, b.names.texts, toc.fileNames);
    assert HoldsCompound(l.pieces, 2, l.nls, toc.newlines);
    assert HoldsCompound(l.pieces, 5, SectionItems(b.docSections), toc.fileSections);
    assert HoldsCompound(l.pieces, 8, PostingItems(b.contents.postings, l.keys), toc.postings);
    assert HoldsCompound(l.pieces, 15, PostingItems(b.names.postings, l.nameKeys), toc.namePostings);
  }

  /** relativeIndex of a section that was written: exact, and the way to every item. */
  method ReadIndex(file: seq<byte>, c: Compound, ghost items: seq<seq<byte>>) returns (index: seq<u32>)
    ensures WrittenItems(file, c, items) ==> ItemsAt(file, c.data, index, items)
  {
    hide JoinAll, SectionOf, HoldsItems, OffsetsFrom, Relative;
    index := RelativeIndex(c);
    if WrittenItems(file, c, items) {
      ItemsReadable(file, c, index, items);
    }
  }

  /** The data section holds the items, and through the index each of them can be read. */
  ghost predicate ItemsAt(file: seq<byte>, data: Simple, index: seq<u32>, items: seq<seq<byte>>) {
    && index == Relative(items)
    && data.off + data.sz <= |file| <= MaxU32 && ReadAt(file, data) == Ok(JoinAll(items))
    && forall i :: 0 <= i < |items| ==> ReadAt(file, ItemSection(data.off, index, i)) == Ok(items[i])
  }

  lemma ItemsReadable(file: seq<byte>, c: Compound, index: seq<u32>, items: seq<seq<byte>>)
    requires WrittenItems(file, c, items)
    requires |index| == (if c.offsets == [] then 0 else |c.offsets| + 1)
    requires forall i :: 0 <= i < |c.offsets| ==> index[i] == Minus(c.offsets[i], c.offsets[0])
    requires c.offsets != [] ==> index[|c.offsets|] == c.data.sz
    ensures ItemsAt(file, c.data, index, items)
  {
    hide JoinAll, SectionOf, HoldsItems, OffsetsFrom, Relative, Wrap;
    var pieces: seq<seq<byte>>, k: nat :| file == JoinAll(pieces) && |file| <= MaxU32 && HoldsCompound(pieces, k, items, c);
    RelativeIsExact(pieces, k, items, index);
    HeldItems(pieces, k, items);
    ReadPiece(pieces, k);
    forall i | 0 <= i < |items| ensures ReadAt(file, ItemSection(c.data.off, index, i)) == Ok(items[i]) {
      ReadItem(pieces, k, items, index, i);
    }
  }

  lemma HeldItems(pieces: seq<seq<byte>>, k: nat, items: seq<seq<byte>>)
    requires HoldsItems(pieces, k, items)
    ensures k + 1 < |pieces| && pieces[k] == JoinAll(items)
  {
  }

  /** The sections in the map are those of the blobs. */
  ghost predicate NgramsRead(m: map<Ngram, Simple>, file: seq<byte>, postings: map<Ngram, seq<byte>>) {
    && (forall ng: Ngram :: ng in m <==> ng in postings)
    && (forall ng: Ngram :: ng in m ==> ReadAt(file, m[ng]) == Ok(postings[ng]))
  }

  ghost predicate ListsRead(m: map<Ngram, seq<u32>>, postings: map<Ngram, seq<byte>>) {
    && (forall ng: Ngram :: ng in m <==> ng in postings)
    && (forall ng: Ngram :: ng in m ==> Parse(postings[ng], 0) == Some(m[ng]))
  }

  lemma NgramsReadable(m: map<Ngram, Simple>, file: seq<byte>, data: Simple, index: seq<u32>, postings: map<Ngram, seq<byte>>, keys: seq<Ngram>)
    requires AreKeys(keys, postings) && ItemsAt(file, data, index, PostingItems(postings, keys))
    requires NgramsAre(m, data.off, index, keys)
    ensures NgramsRead(m, file, postings)
  {
    hide ReadAt, Relative, JoinAll;
    assert keys[..|keys|] == keys;
    forall ng: Ngram | ng in m ensures ReadAt(file, m[ng]) == Ok(postings[ng]) {
      var k :| 0 <= k < |keys| && keys[k] == ng;
    }
  }

  method ReadContentNgrams(file: seq<byte>, toc: Toc, ghost b: Tables, ghost l: Layout) returns (r: Result<map<Ngram, Simple>>)
    ensures WrittenFor(file, toc, b, l) ==> r.Ok? && NgramsRead(r.value, file, b.contents.postings)
  {
    hide WrittenFor, WrittenItems, ReadAt, AreNewlineItems, SectionItems, U64s, DocSectionBytes, NgramsAre, NgramsRead, Relative, JoinAll;
    ghost var good := WrittenFor(file, toc, b, l);
    if good {
      PlainSections(file, toc, b, l);
      CompoundSections(file, toc, b, l);
    }
    var text := ReadAt(file, toc.ngramText);
    if text.Err? {
      return Err(text.reason);
    }
    ghost var items := if good then PostingItems(b.contents.postings, l.keys) else [];
    var index := ReadIndex(file, toc.postings, items);
    r := ReadNgrams(text.value, toc.postings.data.off, index, l.keys);
    if good {
      NgramsReadable(r.value, file, toc.postings.data, index, b.contents.postings, l.keys);
    }
  }

  method ReadFileNameNgrams(file: seq<byte>, toc: Toc, ghost b: Tables, ghost l: Layout) returns (r: Result<map<Ngram, seq<u32>>>)
    ensures WrittenFor(file, toc, b, l) ==> r.Ok? && ListsRead(r.value, b.names.postings)
  {
    hide WrittenItems, ReadAt, AreNewlineItems, SectionItems, U64s, DocSectionBytes, Relative, JoinAll, Parse, Holds, Sane, PostingItems;
    ghost var good := WrittenFor(file, toc, b, l);
    if good {
      PlainSections(file, toc, b, l);
      CompoundSections(file, toc, b, l);
    }
    var text := ReadAt(file, toc.nameNgramText);
    if text.Err? {
      return Err(text.reason);
    }
    ghost var items := if good then PostingItems(b.names.postings, l.nameKeys) else [];
    var index := ReadIndex(file, toc.namePostings, items);
    var data := ReadAt(file, toc.namePostings.data);
    if data.Err? {
      return Err(data.reason);
    }
    r := ReadNameNgrams(text.value, data.value, index, b.names.postings, l.nameKeys);
    if good {
      ListsReadable(r.value, b.names.postings, l.nameKeys);
    }
  }

  lemma ListsReadable(m: map<Ngram, seq<u32>>, postings: map<Ngram, seq<byte>>, keys: seq<Ngram>)
    requires AreKeys(keys, postings) && ListsBelow(m, postings, keys, |keys|)
    ensures ListsRead(m, postings)
  {
    hide Parse;
    assert keys[..|keys|] == keys;
  }

  method ReadMasks(file: seq<byte>, s: Simple, ghost xs: seq<u64>) returns (r: Result<seq<u64>>)
    ensures ReadAt(file, s) == Ok(U64s(xs)) ==> r == Ok(xs)
  {
    if s.sz % 8 != 0 {
      return Err("section size % 8 != 0");
    }
    var blob := ReadAt(file, s);
    if blob.Err? {
      return Err(blob.reason);
    }
    var arr := ReadU64s(blob.value, xs);
    return Ok(arr);
  }

  lemma DataReads(file: seq<byte>, data: Simple, index: seq<u32>, items: seq<seq<byte>>)
    requires ItemsAt(file, data, index, items)
    ensures ReadAt(file, data) == Ok(JoinAll(items))
  {
  }

  lemma SectionsParse(secs: seq<Section>)
    requires 2 * |secs| <= MaxU32
    ensures ParseDocSections(DocSectionBytes(secs)) == Some(secs)
  {
    ParseSizedDeltas(Boundaries(secs));
    PairsBoundaries(secs);
  }

  /** The contents are the first thing in the file. */
  lemma ContentsFirst(file: seq<byte>, b: Tables, l: Layout)
    requires Holds(file, b, l)
    ensures l.toc.fileContents.data.off == 0
  {
    hide NamesAt, RestAt, TocBytes, SimpleBytes, PostingsAt, HoldsSimple, HoldsCompound, AreNewlineItems, JoinAll, U64s;
    FirstSection(l.pieces, b.contents.texts, l.toc.fileContents);
  }

  lemma FirstSection(pieces: seq<seq<byte>>, items: seq<seq<byte>>, c: Compound)
    requires HoldsCompound(pieces, 0, items, c)
    ensures c.data.off == 0
  {
    hide JoinAll, U32s, OffsetsFrom;
    assert pieces[..0] == [];
    NoJoin();
  }

  lemma TextsSame(d: IndexData, toc: Toc, b: Tables, l: Layout)
    requires WrittenFor(d.file, toc, b, l)
    requires ItemsAt(d.file, toc.fileContents.data, d.boundaries, b.contents.texts) && d.boundariesStart == toc.fileContents.data.off
    requires ItemsAt(d.file, toc.newlines.data, d.newlinesIndex, l.nls) && d.newlinesStart == toc.newlines.data.off
    requires ItemsAt(d.file, toc.fileSections.data, d.docSectionsIndex, SectionItems(b.docSections))
    requires d.docSectionsStart == toc.fileSections.data.off
    requires ItemsAt(d.file, toc.fileNames.data, d.fileNameIndex, b.names.texts)
    requires d.fileNamesStart == toc.fileNames.data.off && d.fileNameContent == JoinAll(b.names.texts)
    requires AreNewlineItems(l.nls, b.contents.texts)
    ensures SameTexts(d, b)
  {
    hide JoinAll, Holds, ParseSized, ParseDocSections, DocSectionBytes, SizedDeltas, L.AreNewlines, Decodable;
    ContentsFirst(d.file, b, l);
    forall i | 0 <= i < |b.contents.texts|
      ensures ReadNewlines(d, i).Ok? && L.AreNewlines(ReadNewlines(d, i).value, b.contents.texts[i])
    {
      assert IsNewlineItem(l.nls[i], b.contents.texts[i]);
      var nl: seq<u32> :| |nl| <= MaxU32 && L.AreNewlines(nl, b.contents.texts[i]) && l.nls[i] == SizedDeltas(nl);
      ParseSizedDeltas(nl);
    }
    forall i | 0 <= i < |b.contents.texts| ensures ReadDocSections(d, i) == Ok(b.docSections[i]) {
      SectionsParse(b.docSections[i]);
    }
  }

  ghost predicate Same(d: IndexData, b: Tables) {
    SameTexts(d, b) && SamePostings(d, b) && SameTables(d, b)
  }

  /** verify: the tables that are indexed by documents are of one length (read.go:283-304). */
  predicate Verified(d: IndexData) {
    d.fileNameIndex == [] ||
    (|d.boundaries| == |d.docSectionsIndex| == |d.newlinesIndex| == |d.fileBranchMasks| + 1 == |d.fileNameIndex|)
  }

  /** The tables pass, once they are read back. */
  predicate Consistent(b: Tables) {
    b.names.texts == [] || |b.branchMasks| == |b.names.texts|
  }

  lemma VerifiedIff(d: IndexData, b: Tables)
    requires Same(d, b) && |b.contents.texts| == |b.names.texts|
    ensures Verified(d) <==> Consistent(b)
  {
    hide SamePostings, JoinAll, ReadContents, ReadNewlines, ReadDocSections;
  }

  lemma SameCounts(file: seq<byte>, toc: Toc, b: Tables, l: Layout)
    requires WrittenFor(file, toc, b, l)
    ensures |b.contents.texts| == |b.names.texts|
  {
    hide Holds, Sane, Decodable;
  }

  /** readIndexData: everything that was written comes back, if the tables are of one length; no other tables are accepted. */
  method ReadIndexData(file: seq<byte>, toc: Toc, ghost b: Tables, ghost l: Layout) returns (r: Result<IndexData>)
    ensures WrittenFor(file, toc, b, l) ==> (r.Ok? <==> Consistent(b)) && (r.Ok? ==> r.value.file == file && Same(r.value, b))
    ensures r.Ok? ==> r.value.fileNamesStart == toc.fileNames.data.off && Verified(r.value)
  {
    hide WrittenFor, WrittenItems, ItemsAt, ReadAt, AreKeys, AreNewlineItems, SectionItems, PostingItems, U64s, DocSectionBytes,
      ParseDocSections, KeyedAs, NgramsAre, ListsBelow, ListsGood, SameTexts, NgramsRead, ListsRead;
    ghost var good := WrittenFor(file, toc, b, l);
    if good {
      PlainSections(file, toc, b, l);
      KeyedSections(file, toc, b, l);
      CompoundSections(file, toc, b, l);
    }
    var metaData := ReadAt(file, toc.metaData);
    if metaData.Err? { return Err(metaData.reason); }
    var repoMetaData := ReadAt(file, toc.repoMetaData);
    if repoMetaData.Err? { return Err(repoMetaData.reason); }
    var boundaries := ReadIndex(file, toc.fileContents, b.contents.texts);
    var newlinesIndex := ReadIndex(file, toc.newlines, l.nls);
    var docSectionsIndex := ReadIndex(file, toc.fileSections, SectionItems(b.docSections));
    var checksums := ReadAt(file, toc.contentChecksums);
    if checksums.Err? { return Err(checksums.reason); }
    var languages := ReadAt(file, toc.languages);
    if languages.Err? { return Err(languages.reason); }
    var ngrams := ReadContentNgrams(file, toc, b, l);
    if ngrams.Err? { return Err(ngrams.reason); }
    var masks := ReadMasks(file, toc.branchMasks, b.branchMasks);
    if masks.Err? { return Err(masks.reason); }
    var fileNameContent := ReadAt(file, toc.fileNames.data);
    var fileNameIndex := ReadIndex(file, toc.fileNames, b.names.texts);
    if good {
      DataReads(file, toc.fileNames.data, fileNameIndex, b.names.texts);
    }
    if fileNameContent.Err? { return Err(fileNameContent.reason); }
    var nameNgrams := ReadFileNameNgrams(file, toc, b, l);
    if nameNgrams.Err? { return Err(nameNgrams.reason); }
    var sections := ReadAt(file, toc.runeDocSections);
    if sections.Err? { return Err(sections.reason); }
    if good {
      SectionsParse(b.runeDocSections);
    }
    if ParseDocSections(sections.value).None? { return Err("corrupt"); }
    var runeDocSections := UnmarshalDocSections(sections.value);
    var tables := ReadKeyed(file, [toc.subRepos, toc.runeOffsets, toc.nameRuneOffsets, toc.nameEndRunes, toc.fileEndRunes],
      [b.subRepos, b.contents.runeOffsets, b.names.runeOffsets, b.names.endRunes, b.contents.endRunes]);
    if tables.Err? { return Err(tables.reason); }
    var ts := tables.value;
    var d := IndexData(file, ngrams.value, toc.newlines.data.off, newlinesIndex, toc.fileSections.data.off, docSectionsIndex,
                       runeDocSections, ts[1], toc.fileContents.data.off, boundaries, ts[4],
                       toc.fileNames.data.off, fileNameContent.value, fileNameIndex, nameNgrams.value,
                       ts[2], ts[3], masks.value, ts[0], checksums.value, languages.value, metaData.value, repoMetaData.value);
    if good {
      TextsSame(d, toc, b, l);
      SameCounts(file, toc, b, l);
      VerifiedIff(d, b);
    }
    if !Verified(d) { return Err("verify"); }
    return Ok(d);
  }

  // ----- the table of contents -----

  lemma WrittenEndsWithToc(file: seq<byte>, b: Tables, l: Layout)
    requires Holds(file, b, l) && |file| <= MaxU32
    ensures EndsWith(file, l.toc)
  {
    hide JoinAll, SectionOf, TocBytes, SimpleBytes, ContentsAt, NamesAt, RestAt, IndexReads;
    var ps := l.pieces;
    ReadPiece(ps, 25);
    ReadPiece(ps, 26);
    JoinSplit(ps, 26);
    assert ps[27..] == [];
    NoJoin();
    assert file[|file| - 8..] == SimpleBytes(SectionOf(ps, 25));
    forall i | 0 <= i < SectionCount ensures IndexReads(file, l.toc.Sections()[i]) {
      IndexesRead(file, b, l, i);
    }
  }

  lemma IndexesRead(file: seq<byte>, b: Tables, l: Layout, i: nat)
    requires Holds(file, b, l) && |file| <= MaxU32 && i < SectionCount
    ensures IndexReads(file, l.toc.Sections()[i])
  {
    hide JoinAll, SectionOf, TocBytes, SimpleBytes, HoldsSimple, HoldsCompound, U32s;
    var ps := l.pieces;
    IndexRead(ps, 0, b.contents.texts, l.toc.fileContents);
    IndexRead(ps, 2, l.nls, l.toc.newlines);
    IndexRead(ps, 5, SectionItems(b.docSections), l.toc.fileSections);
    IndexRead(ps, 8, PostingItems(b.contents.postings, l.keys), l.toc.postings);
    IndexRead(ps, 12, b.names.texts, l.toc.fileNames);
    IndexRead(ps, 15, PostingItems(b.names.postings, l.nameKeys), l.toc.namePostings);
  }

  lemma IndexRead(pieces: seq<seq<byte>>, k: nat, items: seq<seq<byte>>, c: Compound)
    requires HoldsCompound(pieces, k, items, c) && |JoinAll(pieces)| <= MaxU32
    ensures ReadAt(JoinAll(pieces), c.index) == Ok(U32s(c.offsets))
  {
    hide JoinAll, SectionOf, U32s;
    ReadPiece(pieces, k + 1);
  }

  /** NewSearcher: reading the file gives back what was written. */
  method NewSearcher(file: seq<byte>, ghost b: Tables, ghost l: Layout) returns (r: Result<IndexData>)
    ensures WrittenFor(file, l.toc, b, l) ==>
              && (r.Ok? <==> Consistent(b))
              && (r.Ok? ==> r.value.file == file && Same(r.value, b) && r.value.fileNamesStart == l.toc.fileNames.data.off)
    ensures r.Ok? ==> Verified(r.value)
  {
    hide Holds, Same, EndsWith, Verified, Consistent;
    if WrittenFor(file, l.toc, b, l) {
      WrittenEndsWithToc(file, b, l);
    }
    var toc := ReadTOC(file, l.toc);
    if toc.Err? {
      return Err(toc.reason);
    }
    r := ReadIndexData(file, toc.value, b, l);
  }
}
