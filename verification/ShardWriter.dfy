/** Writing a shard (IndexBuilder.Write, write.go). */
module ShardWriter {
  import opened Machine
  import opened Ngrams
  import opened DeltaCodec
  import opened Sorting
  import opened SectionFile
  import opened TableOfContents
  import L = LineAssembly
  import Varint

  /** The index of one kind of text, as the builder has it. */
  datatype TextTables = TextTables(texts: seq<seq<byte>>, postings: map<Ngram, seq<byte>>, runeOffsets: seq<u32>, endRunes: seq<u32>)

  /** What a builder writes. The two JSON documents are blobs. */
  datatype Tables = Tables(
    contents: TextTables, names: TextTables, docSections: seq<seq<Section>>, runeDocSections: seq<Section>,
    branchMasks: seq<u64>, subRepos: seq<u32>, checksums: seq<byte>, languages: seq<byte>,
    metaData: seq<byte>, repoMetaData: seq<byte>)

  /** Every list is shorter than 2^32, as it is in a shard below 2^32 bytes. */
  ghost predicate TextSane(t: TextTables) {
    && |t.runeOffsets| <= MaxU32 && |t.endRunes| <= MaxU32
    && forall i :: 0 <= i < |t.texts| ==> |t.texts[i]| <= MaxU32
  }

  ghost predicate Sane(b: Tables) {
    && TextSane(b.contents) && TextSane(b.names) && |b.subRepos| <= MaxU32 && 2 * |b.runeDocSections| <= MaxU32
    && forall i :: 0 <= i < |b.docSections| ==> 2 * |b.docSections[i]| <= MaxU32
  }

  // ----- what stands in a file -----

  ghost predicate HoldsSimple(pieces: seq<seq<byte>>, k: nat, blob: seq<byte>, s: Simple) {
    k < |pieces| && pieces[k] == blob && s == SectionOf(pieces, k)
  }

  ghost predicate HoldsCompound(pieces: seq<seq<byte>>, k: nat, items: seq<seq<byte>>, c: Compound) {
    HoldsItems(pieces, k, items) && c == CompoundOf(pieces, k, items)
  }

  lemma SimpleStable(p: seq<seq<byte>>, q: seq<seq<byte>>, k: nat, blob: seq<byte>, s: Simple)
    requires p <= q && HoldsSimple(p, k, blob, s)
    ensures HoldsSimple(q, k, blob, s)
  {
    assert q[..k] == p[..k];
  }

  lemma CompoundStable(p: seq<seq<byte>>, q: seq<seq<byte>>, k: nat, items: seq<seq<byte>>, c: Compound)
    requires p <= q && HoldsCompound(p, k, items, c)
    ensures HoldsCompound(q, k, items, c)
  {
    hide JoinAll, OffsetsFrom, U32s;
    assert q[..k] == p[..k] && q[..k + 1] == p[..k + 1];
  }

  /** The item of a document in the newline section. */
  ghost predicate IsNewlineItem(item: seq<byte>, data: seq<byte>) {
    exists nl: seq<u32> :: |nl| <= MaxU32 && L.AreNewlines(nl, data) && item == SizedDeltas(nl)
  }

  ghost predicate AreNewlineItems(items: seq<seq<byte>>, texts: seq<seq<byte>>) {
    |items| == |texts| && forall i :: 0 <= i < |texts| ==> IsNewlineItem(items[i], texts[i])
  }

  ghost function SectionItems(secs: seq<seq<Section>>): (r: seq<seq<byte>>)
    ensures |r| == |secs| && forall i :: 0 <= i < |secs| ==> r[i] == DocSectionBytes(secs[i])
  {
    seq(|secs|, i requires 0 <= i < |secs| => DocSectionBytes(secs[i]))
  }

  /** The keys of the map, in order. */
  ghost predicate AreKeys(keys: seq<Ngram>, m: map<Ngram, seq<byte>>) {
    Increasing(keys) && forall ng: Ngram :: ng in keys <==> ng in m
  }

  ghost function PostingItems(m: map<Ngram, seq<byte>>, keys: seq<Ngram>): (r: seq<seq<byte>>)
    requires forall ng: Ngram :: ng in keys ==> ng in m
    ensures |r| == |keys| && forall i :: 0 <= i < |keys| ==> r[i] == m[keys[i]]
  {
    seq(|keys|, i requires 0 <= i < |keys| => assert keys[i] in keys; m[keys[i]])
  }

  /** The five sections that writePostings writes, from piece `k` on. */
  ghost predicate PostingsAt(pieces: seq<seq<byte>>, k: nat, t: TextTables, keys: seq<Ngram>,
                             ngramText: Simple, postings: Compound, runeOffsets: Simple, endRunes: Simple)
  {
    && AreKeys(keys, t.postings)
    && HoldsSimple(pieces, k, U64s(keys), ngramText)
    && HoldsCompound(pieces, k + 1, PostingItems(t.postings, keys), postings)
    && HoldsSimple(pieces, k + 3, SizedDeltas(t.runeOffsets), runeOffsets)
    && HoldsSimple(pieces, k + 4, SizedDeltas(t.endRunes), endRunes)
  }

  lemma PostingsStable(p: seq<seq<byte>>, q: seq<seq<byte>>, k: nat, t: TextTables, keys: seq<Ngram>,
                       ngramText: Simple, postings: Compound, runeOffsets: Simple, endRunes: Simple)
    requires p <= q && PostingsAt(p, k, t, keys, ngramText, postings, runeOffsets, endRunes)
    ensures PostingsAt(q, k, t, keys, ngramText, postings, runeOffsets, endRunes)
  {
    hide HoldsSimple, HoldsCompound, SizedDeltas, U64s, PostingItems;
    SimpleStable(p, q, k, U64s(keys), ngramText);
    CompoundStable(p, q, k + 1, PostingItems(t.postings, keys), postings);
    SimpleStable(p, q, k + 3, SizedDeltas(t.runeOffsets), runeOffsets);
    SimpleStable(p, q, k + 4, SizedDeltas(t.endRunes), endRunes);
  }

  // ----- writing the parts -----

  method WriteStrings(w: Writer, strs: seq<seq<byte>>) returns (c: Compound)
    requires w.Valid()
    modifies w
    ensures w.Valid() && old(w.pieces) <= w.pieces && |w.pieces| == |old(w.pieces)| + 2
    ensures HoldsCompound(w.pieces, |old(w.pieces)|, strs, c)
  {
    hide JoinAll, OffsetsFrom, U32s;
    var sec := new CompoundSection();
    ghost var before := w.pieces;
    sec.Start(w);
    for i := 0 to |strs|
      invariant sec.Collecting(w, strs[..i]) && w.pieces == before
    {
      sec.AddItem(w, strs[i], strs[..i]);
      assert strs[..i + 1] == strs[..i] + [strs[i]];
    }
    assert strs[..|strs|] == strs;
    c := sec.End(w, strs);
  }

  method WriteNewlines(w: Writer, texts: seq<seq<byte>>) returns (c: Compound, ghost items: seq<seq<byte>>)
    requires w.Valid() && forall i :: 0 <= i < |texts| ==> |texts[i]| <= MaxU32
    modifies w
    ensures w.Valid() && old(w.pieces) <= w.pieces && |w.pieces| == |old(w.pieces)| + 2
    ensures AreNewlineItems(items, texts) && HoldsCompound(w.pieces, |old(w.pieces)|, items, c)
  {
    hide JoinAll, OffsetsFrom, U32s, SizedDeltas, L.AreNewlines;
    var sec := new CompoundSection();
    ghost var before := w.pieces;
    sec.Start(w);
    items := [];
    for i := 0 to |texts|
      invariant sec.Collecting(w, items) && w.pieces == before && AreNewlineItems(items, texts[..i])
    {
      var nl := L.NewLinesIndices(texts[i]);
      NewlineCount(nl, texts[i]);
      var item := ToSizedDeltas(nl);
      sec.AddItem(w, item, items);
      items := items + [item];
      assert IsNewlineItem(item, texts[i]);
      assert texts[..i + 1] == texts[..i] + [texts[i]];
    }
    assert texts[..|texts|] == texts;
    c := sec.End(w, items);
  }

  lemma NewlineCount(nl: seq<u32>, data: seq<byte>)
    requires L.AreNewlines(nl, data) && |data| <= MaxU32
    ensures |nl| <= MaxU32
  {
    forall i | 0 <= i < |nl| ensures nl[i] >= i {
      AtLeastIndex(nl, i);
    }
    if nl != [] {
      assert nl[|nl| - 1] in nl;
    }
  }

  lemma {:induction false} AtLeastIndex(xs: seq<u32>, i: nat)
    requires Increasing(xs) && i < |xs|
    ensures xs[i] >= i
  {
    if i > 0 {
      AtLeastIndex(xs, i - 1);
      assert xs[i - 1] < xs[i];
    }
  }

  method WriteDocSections(w: Writer, secs: seq<seq<Section>>) returns (c: Compound)
    requires w.Valid() && forall i :: 0 <= i < |secs| ==> 2 * |secs[i]| <= MaxU32
    modifies w
    ensures w.Valid() && old(w.pieces) <= w.pieces && |w.pieces| == |old(w.pieces)| + 2
    ensures HoldsCompound(w.pieces, |old(w.pieces)|, SectionItems(secs), c)
  {
    hide JoinAll, OffsetsFrom, U32s, DocSectionBytes;
    var sec := new CompoundSection();
    ghost var before := w.pieces;
    sec.Start(w);
    assert SectionItems(secs[..0]) == [];
    for i := 0 to |secs|
      invariant sec.Collecting(w, SectionItems(secs[..i])) && w.pieces == before
    {
      var item := MarshalDocSections(secs[i]);
      sec.AddItem(w, item, SectionItems(secs[..i]));
      assert SectionItems(secs[..i + 1]) == SectionItems(secs[..i]) + [item];
    }
    assert secs[..|secs|] == secs;
    c := sec.End(w, SectionItems(secs));
  }

  /** The trigrams in order (write.go:44-48). */
  method SortedKeys(m: map<Ngram, seq<byte>>) returns (keys: seq<Ngram>)
    ensures AreKeys(keys, m)
  {
    var ks: seq<Ngram> := [];
    var left := m.Keys;
    while left != {}
      invariant left <= m.Keys && Distinct(ks) && forall ng: Ngram :: ng in ks <==> ng in m && ng !in left
      decreases left
    {
      var k :| k in left;
      ks := ks + [k];
      left := left - {k};
    }
    var key := (ng: Ngram) => ng as int;
    keys := SortBy(ks, key);
    SortedAreKeys(ks, keys, key);
  }

  ghost predicate Distinct(s: seq<Ngram>) {
    forall i, j :: 0 <= i < j < |s| ==> s[i] != s[j]
  }

  /** Distinct numbers in order increase. */
  lemma SortedAreKeys(ks: seq<Ngram>, keys: seq<Ngram>, key: Ngram -> int)
    requires Distinct(ks) && SortedBy(keys, key) && multiset(keys) == multiset(ks) && forall ng: Ngram :: key(ng) == ng
    ensures Increasing(keys) && forall ng: Ngram :: ng in keys <==> ng in ks
  {
    forall ng: Ngram ensures ng in keys <==> ng in ks {
      assert ng in multiset(keys) <==> ng in multiset(ks);
    }
    forall i, j | 0 <= i < j < |keys| ensures keys[i] < keys[j] {
      assert key(keys[i]) <= key(keys[j]);
      if keys[i] == keys[j] {
        Twice(keys, i, j);
        AtMostOnce(ks, keys[i]);
      }
    }
  }

  lemma Twice(s: seq<Ngram>, i: nat, j: nat)
    requires i < j < |s| && s[i] == s[j]
    ensures multiset(s)[s[i]] >= 2
  {
    assert s == s[..j] + [s[j]] + s[j + 1..];
    assert s[i] in s[..j];
    assert multiset(s) == multiset(s[..j]) + multiset{s[j]} + multiset(s[j + 1..]);
  }

  lemma {:induction false} AtMostOnce(s: seq<Ngram>, x: Ngram)
    requires Distinct(s)
    ensures multiset(s)[x] <= 1
  {
    if s != [] {
      var n := |s| - 1;
      AtMostOnce(s[..n], x);
      assert s == s[..n] + [s[n]];
      assert s[n] !in s[..n];
    }
  }

  /** writePostings. */
  method WritePostings(w: Writer, t: TextTables)
    returns (ngramText: Simple, postings: Compound, runeOffsets: Simple, endRunes: Simple, ghost keys: seq<Ngram>)
    requires w.Valid() && TextSane(t)
    modifies w
    ensures w.Valid() && old(w.pieces) <= w.pieces && |w.pieces| == |old(w.pieces)| + 5
    ensures PostingsAt(w.pieces, |old(w.pieces)|, t, keys, ngramText, postings, runeOffsets, endRunes)
  {
    hide JoinAll, SizedDeltas, U64s, HoldsItems, CompoundOf, SectionOf;
    var ks := SortedKeys(t.postings);
    keys := ks;
    ghost var k := |w.pieces|;
    var text := PutU64s(ks);
    ngramText := w.WriteSection(text);
    ghost var p1 := w.pieces;
    postings := WritePostingItems(w, t.postings, ks);
    ghost var p2 := w.pieces;
    var ro := ToSizedDeltas(t.runeOffsets);
    runeOffsets := w.WriteSection(ro);
    ghost var p3 := w.pieces;
    var er := ToSizedDeltas(t.endRunes);
    endRunes := w.WriteSection(er);
    SimpleStable(p1, w.pieces, k, U64s(ks), ngramText);
    CompoundStable(p2, w.pieces, k + 1, PostingItems(t.postings, ks), postings);
    SimpleStable(p3, w.pieces, k + 3, SizedDeltas(t.runeOffsets), runeOffsets);
  }

  method WritePostingItems(w: Writer, m: map<Ngram, seq<byte>>, keys: seq<Ngram>) returns (c: Compound)
    requires w.Valid() && AreKeys(keys, m)
    modifies w
    ensures w.Valid() && old(w.pieces) <= w.pieces && |w.pieces| == |old(w.pieces)| + 2
    ensures HoldsCompound(w.pieces, |old(w.pieces)|, PostingItems(m, keys), c)
  {
    hide JoinAll, OffsetsFrom, U32s;
    var sec := new CompoundSection();
    ghost var before := w.pieces;
    sec.Start(w);
    assert PostingItems(m, keys[..0]) == [];
    for i := 0 to |keys|
      invariant sec.Collecting(w, PostingItems(m, keys[..i])) && w.pieces == before
    {
      assert keys[i] in keys;
      sec.AddItem(w, m[keys[i]], PostingItems(m, keys[..i]));
      assert PostingItems(m, keys[..i + 1]) == PostingItems(m, keys[..i]) + [m[keys[i]]];
    }
    assert keys[..|keys|] == keys;
    c := sec.End(w, PostingItems(m, keys));
  }

  // ----- the whole file -----

  /** The pieces that hold the contents and what belongs to them. */
  ghost predicate ContentsAt(pieces: seq<seq<byte>>, b: Tables, toc: Toc, nls: seq<seq<byte>>, keys: seq<Ngram>) {
    && HoldsCompound(pieces, 0, b.contents.texts, toc.fileContents)
    && AreNewlineItems(nls, b.contents.texts) && HoldsCompound(pieces, 2, nls, toc.newlines)
    && HoldsSimple(pieces, 4, U64s(b.branchMasks), toc.branchMasks)
    && HoldsCompound(pieces, 5, SectionItems(b.docSections), toc.fileSections)
    && PostingsAt(pieces, 7, b.contents, keys, toc.ngramText, toc.postings, toc.runeOffsets, toc.fileEndRunes)
  }

  ghost predicate NamesAt(pieces: seq<seq<byte>>, b: Tables, toc: Toc, keys: seq<Ngram>) {
    && HoldsCompound(pieces, 12, b.names.texts, toc.fileNames)
    && PostingsAt(pieces, 14, b.names, keys, toc.nameNgramText, toc.namePostings, toc.nameRuneOffsets, toc.nameEndRunes)
  }

  ghost predicate RestAt(pieces: seq<seq<byte>>, b: Tables, toc: Toc) {
    && HoldsSimple(pieces, 19, SizedDeltas(b.subRepos), toc.subRepos)
    && HoldsSimple(pieces, 20, b.checksums, toc.contentChecksums)
    && HoldsSimple(pieces, 21, b.languages, toc.languages)
    && HoldsSimple(pieces, 22, DocSectionBytes(b.runeDocSections), toc.runeDocSections)
    && HoldsSimple(pieces, 23, b.metaData, toc.metaData)
    && HoldsSimple(pieces, 24, b.repoMetaData, toc.repoMetaData)
  }

  /** How to find everything in the file. */
  datatype Layout = Layout(pieces: seq<seq<byte>>, toc: Toc, nls: seq<seq<byte>>, keys: seq<Ngram>, nameKeys: seq<Ngram>)

  /** The file holds the tables, followed by the table of contents and where that is. */
  ghost predicate Holds(file: seq<byte>, b: Tables, l: Layout) {
    && |l.pieces| == 27 && file == JoinAll(l.pieces)
    && ContentsAt(l.pieces, b, l.toc, l.nls, l.keys) && NamesAt(l.pieces, b, l.toc, l.nameKeys) && RestAt(l.pieces, b, l.toc)
    && l.pieces[25] == TocBytes(l.toc) && l.pieces[26] == SimpleBytes(SectionOf(l.pieces, 25))
  }

  const NoSimple: Simple := Simple(0, 0)
  const NoCompound: Compound := Compound(NoSimple, [], NoSimple)
  const EmptyToc: Toc := Toc(NoCompound, NoCompound, NoCompound, NoCompound, NoCompound, NoSimple, NoSimple, NoSimple, NoSimple,
                             NoSimple, NoSimple, NoSimple, NoCompound, NoSimple, NoSimple, NoSimple, NoSimple, NoSimple, NoSimple)

  method WriteContents(w: Writer, b: Tables, toc0: Toc) returns (toc: Toc, ghost nls: seq<seq<byte>>, ghost keys: seq<Ngram>)
    requires w.Valid() && w.pieces == [] && Sane(b)
    modifies w
    ensures w.Valid() && |w.pieces| == 12 && ContentsAt(w.pieces, b, toc, nls, keys)
  {
    hide HoldsSimple, HoldsCompound, PostingsAt, SizedDeltas, U64s, SectionItems, AreNewlineItems, Writer.Valid;
    toc := toc0;
    var fileContents := WriteStrings(w, b.contents.texts);
    ghost var p1 := w.pieces;
    var newlines;
    newlines, nls := WriteNewlines(w, b.contents.texts);
    ghost var p2 := w.pieces;
    var masks := PutU64s(b.branchMasks);
    var branchMasks := w.WriteSection(masks);
    ghost var p3 := w.pieces;
    HoldsNow(p2, masks, branchMasks);
    var fileSections := WriteDocSections(w, b.docSections);
    ghost var p4 := w.pieces;
    var ngramText, postings, runeOffsets, endRunes;
    ngramText, postings, runeOffsets, endRunes, keys := WritePostings(w, b.contents);
    toc := toc.(fileContents := fileContents, newlines := newlines, branchMasks := branchMasks, fileSections := fileSections,
                ngramText := ngramText, postings := postings, runeOffsets := runeOffsets, fileEndRunes := endRunes);
    CompoundStable(p1, w.pieces, 0, b.contents.texts, toc.fileContents);
    CompoundStable(p2, w.pieces, 2, nls, toc.newlines);
    SimpleStable(p3, w.pieces, 4, U64s(b.branchMasks), toc.branchMasks);
    CompoundStable(p4, w.pieces, 5, SectionItems(b.docSections), toc.fileSections);
  }

  lemma HoldsNow(p: seq<seq<byte>>, blob: seq<byte>, s: Simple)
    requires s == SectionOf(p + [blob], |p|)
    ensures HoldsSimple(p + [blob], |p|, blob, s)
  {
  }

  method WriteNames(w: Writer, b: Tables, toc0: Toc) returns (toc: Toc, ghost keys: seq<Ngram>)
    requires w.Valid() && |w.pieces| == 12 && Sane(b)
    modifies w
    ensures w.Valid() && |w.pieces| == 19 && old(w.pieces) <= w.pieces && NamesAt(w.pieces, b, toc, keys)
    ensures toc == toc0.(fileNames := toc.fileNames, nameNgramText := toc.nameNgramText, namePostings := toc.namePostings,
                         nameRuneOffsets := toc.nameRuneOffsets, nameEndRunes := toc.nameEndRunes)
  {
    hide HoldsSimple, HoldsCompound, PostingsAt, Writer.Valid;
    toc := toc0;
    var fileNames := WriteStrings(w, b.names.texts);
    ghost var p1 := w.pieces;
    var ngramText, postings, runeOffsets, endRunes;
    ngramText, postings, runeOffsets, endRunes, keys := WritePostings(w, b.names);
    toc := toc.(fileNames := fileNames, nameNgramText := ngramText, namePostings := postings,
                nameRuneOffsets := runeOffsets, nameEndRunes := endRunes);
    CompoundStable(p1, w.pieces, 12, b.names.texts, toc.fileNames);
  }

  method WriteRest(w: Writer, b: Tables, toc0: Toc) returns (toc: Toc)
    requires w.Valid() && |w.pieces| == 19 && Sane(b)
    modifies w
    ensures w.Valid() && |w.pieces| == 25 && old(w.pieces) <= w.pieces && RestAt(w.pieces, b, toc)
    ensures toc == toc0.(subRepos := toc.subRepos, contentChecksums := toc.contentChecksums, languages := toc.languages,
                         runeDocSections := toc.runeDocSections, metaData := toc.metaData, repoMetaData := toc.repoMetaData)
  {
    hide HoldsSimple, SizedDeltas, DocSectionBytes, Writer.Valid, SectionOf;
    ghost var p0 := w.pieces;
    var blob := ToSizedDeltas(b.subRepos);
    var subRepos := w.WriteSection(blob);
    ghost var p1 := w.pieces;
    HoldsNow(p0, blob, subRepos);
    var checksums := w.WriteSection(b.checksums);
    ghost var p2 := w.pieces;
    HoldsNow(p1, b.checksums, checksums);
    var languages := w.WriteSection(b.languages);
    ghost var p3 := w.pieces;
    HoldsNow(p2, b.languages, languages);
    blob := MarshalDocSections(b.runeDocSections);
    var runeDocSections := w.WriteSection(blob);
    ghost var p4 := w.pieces;
    HoldsNow(p3, blob, runeDocSections);
    var metaData := w.WriteSection(b.metaData);
    ghost var p5 := w.pieces;
    HoldsNow(p4, b.metaData, metaData);
    var repoMetaData := w.WriteSection(b.repoMetaData);
    HoldsNow(p5, b.repoMetaData, repoMetaData);
    toc := toc0.(subRepos := subRepos, contentChecksums := checksums, languages := languages,
                 runeDocSections := runeDocSections, metaData := metaData, repoMetaData := repoMetaData);
    SimpleStable(p1, w.pieces, 19, SizedDeltas(b.subRepos), subRepos);
    SimpleStable(p2, w.pieces, 20, b.checksums, checksums);
    SimpleStable(p3, w.pieces, 21, b.languages, languages);
    SimpleStable(p4, w.pieces, 22, DocSectionBytes(b.runeDocSections), runeDocSections);
    SimpleStable(p5, w.pieces, 23, b.metaData, metaData);
  }

  lemma ContentsStable(p: seq<seq<byte>>, q: seq<seq<byte>>, b: Tables, toc: Toc, toc': Toc, nls: seq<seq<byte>>, keys: seq<Ngram>)
    requires p <= q && ContentsAt(p, b, toc, nls, keys)
    requires toc'.fileContents == toc.fileContents && toc'.newlines == toc.newlines && toc'.branchMasks == toc.branchMasks
    requires toc'.fileSections == toc.fileSections && toc'.ngramText == toc.ngramText && toc'.postings == toc.postings
    requires toc'.runeOffsets == toc.runeOffsets && toc'.fileEndRunes == toc.fileEndRunes
    ensures ContentsAt(q, b, toc', nls, keys)
  {
    hide HoldsSimple, HoldsCompound, PostingsAt, U64s, SectionItems, AreNewlineItems;
    CompoundStable(p, q, 0, b.contents.texts, toc.fileContents);
    CompoundStable(p, q, 2, nls, toc.newlines);
    SimpleStable(p, q, 4, U64s(b.branchMasks), toc.branchMasks);
    CompoundStable(p, q, 5, SectionItems(b.docSections), toc.fileSections);
    PostingsStable(p, q, 7, b.contents, keys, toc.ngramText, toc.postings, toc.runeOffsets, toc.fileEndRunes);
  }

  lemma NamesStable(p: seq<seq<byte>>, q: seq<seq<byte>>, b: Tables, toc: Toc, toc': Toc, keys: seq<Ngram>)
    requires p <= q && NamesAt(p, b, toc, keys) && toc'.fileNames == toc.fileNames
    requires toc'.nameNgramText == toc.nameNgramText && toc'.namePostings == toc.namePostings
    requires toc'.nameRuneOffsets == toc.nameRuneOffsets && toc'.nameEndRunes == toc.nameEndRunes
    ensures NamesAt(q, b, toc', keys)
  {
    hide HoldsCompound, PostingsAt;
    CompoundStable(p, q, 12, b.names.texts, toc.fileNames);
    PostingsStable(p, q, 14, b.names, keys, toc.nameNgramText, toc.namePostings, toc.nameRuneOffsets, toc.nameEndRunes);
  }

  lemma RestStable(p: seq<seq<byte>>, q: seq<seq<byte>>, b: Tables, toc: Toc)
    requires p <= q && RestAt(p, b, toc)
    ensures RestAt(q, b, toc)
  {
    hide HoldsSimple, SizedDeltas, DocSectionBytes;
    SimpleStable(p, q, 19, SizedDeltas(b.subRepos), toc.subRepos);
    SimpleStable(p, q, 20, b.checksums, toc.contentChecksums);
    SimpleStable(p, q, 21, b.languages, toc.languages);
    SimpleStable(p, q, 22, DocSectionBytes(b.runeDocSections), toc.runeDocSections);
    SimpleStable(p, q, 23, b.metaData, toc.metaData);
    SimpleStable(p, q, 24, b.repoMetaData, toc.repoMetaData);
  }

  /** Write. */
  method Write(b: Tables) returns (file: seq<byte>, ghost l: Layout)
    requires Sane(b)
    ensures Holds(file, b, l)
    ensures exists m :: Holds(file, b, m)
  {
    hide ContentsAt, NamesAt, RestAt, JoinAll, TocBytes, SimpleBytes;
    var w := new Writer();
    var toc, nls, keys := WriteContents(w, b, EmptyToc);
    ghost var p1, toc1 := w.pieces, toc;
    ghost var nameKeys;
    toc, nameKeys := WriteNames(w, b, toc);
    ghost var p2, toc2 := w.pieces, toc;
    toc := WriteRest(w, b, toc);
    ghost var p3 := w.pieces;
    var table := WriteTOC(toc);
    var tocSection := w.WriteSection(table);
    ghost var p4 := w.pieces;
    var _ := w.WriteSection(SimpleBytes(tocSection));
    ContentsStable(p1, w.pieces, b, toc1, toc, nls, keys);
    NamesStable(p2, w.pieces, b, toc2, toc, nameKeys);
    RestStable(p3, w.pieces, b, toc);
    SectionStable(p4, [SimpleBytes(tocSection)], 25);
    return w.out, Layout(w.pieces, toc, nls, keys, nameKeys);
  }
}
