/** The builder of a shard (IndexBuilder, indexbuilder.go:148-420). */
module ShardBuilder {
  import opened Machine
  import opened Utf8
  import opened Corpus
  import opened DeltaCodec
  import opened Sorting
  import opened Postings
  import opened ShardIndex
  import A = MatchAtoms
  import L = LineAssembly

  datatype Document = Document(name: seq<byte>, content: seq<byte>, branches: seq<string>, subRepositoryPath: string,
                               language: string, skipReason: seq<byte>, symbols: seq<Section>)

  /** The bytes of a text in ASCII. */
  function Ascii(s: string): (b: seq<byte>)
    ensures |b| == |s| && forall i :: 0 <= i < |s| ==> b[i] == s[i] as int % 256
  {
    seq(|s|, i requires 0 <= i < |s| => s[i] as int % 256)
  }

  /** notIndexedMarker. */
  const NotIndexedMarker: seq<byte> := Ascii("NOT-INDEXED: ")

  /** The reason to skip a document with a zero byte at offset `i`; `decimal` writes numbers. */
  function BinaryReason(decimal: int -> seq<byte>, i: int): (r: seq<byte>)
    ensures r != []
  {
    Ascii("binary content at byte offset ") + decimal(i)
  }

  // ----- sections -----

  ghost predicate ByStart(secs: seq<Section>) {
    forall i, j :: 0 <= i < j < |secs| ==> secs[i].start <= secs[j].start
  }

  /** What Add checks of the sorted sections: each ends before the next starts, and the last one ends in the text. */
  ghost predicate Apart(secs: seq<Section>) {
    forall i :: 0 < i < |secs| ==> secs[i - 1].end <= secs[i].start
  }

  ghost predicate Forward(secs: seq<Section>) {
    forall i :: 0 <= i < |secs| ==> secs[i].start <= secs[i].end
  }

  /** docSectionSlice. */
  method SortSections(secs: seq<Section>) returns (r: seq<Section>)
    ensures ByStart(r) && multiset(r) == multiset(secs)
  {
    var key := (s: Section) => s.start as int;
    r := SortBy(secs, key);
    forall i, j | 0 <= i < j < |r| ensures r[i].start <= r[j].start {
      assert key(r[i]) <= key(r[j]);
    }
  }

  /** Forward sections that pass the checks fit into the text. */
  lemma {:induction false} CheckedFit(secs: seq<Section>, size: nat)
    requires Forward(secs) && Apart(secs) && (secs != [] ==> secs[|secs| - 1].end <= size)
    ensures SectionsFit(secs, size)
    decreases |secs|
  {
    hide SectionsFit;
    if secs == [] {
      NoSections(size);
    } else {
      var n := |secs| - 1;
      var init, last := secs[..n], secs[n];
      assert secs == init + [last];
      assert Forward(init) && Apart(init) by { PrefixChecked(secs, n); }
      assert n > 0 ==> secs[n - 1].end <= secs[n].start;
      CheckedFit(init, last.start);
      OneMoreSection(init, last, size);
    }
  }

  lemma NoSections(size: nat)
    ensures SectionsFit([], size)
  {
  }

  lemma PrefixChecked(secs: seq<Section>, n: nat)
    requires Forward(secs) && Apart(secs) && n <= |secs|
    ensures Forward(secs[..n]) && Apart(secs[..n])
  {
  }

  lemma OneMoreSection(secs: seq<Section>, s: Section, size: nat)
    requires SectionsFit(secs, s.start) && s.start <= s.end <= size
    ensures SectionsFit(secs + [s], size)
  {
    BoundariesAppend(secs, s);
    var a, b := Boundaries(secs), Boundaries(secs + [s]);
    assert b == a + [s.start, s.end];
    forall i, j | 0 <= i < j < |b| ensures b[i] <= b[j] {
      assert i < |a| ==> a[i] in a;
    }
  }

  /** The overlap check (indexbuilder.go:347-358). */
  method CheckSections(secs: seq<Section>, size: nat) returns (r: Result<bool>)
    ensures r.Ok? <==> Apart(secs) && (secs != [] ==> secs[|secs| - 1].end <= size)
    ensures r.Ok? && Forward(secs) ==> SectionsFit(secs, size)
  {
    var last := Section(0, 0);
    for i := 0 to |secs|
      invariant i > 0 ==> last == secs[i - 1]
      invariant forall k :: 0 < k < i ==> secs[k - 1].end <= secs[k].start
      invariant i == 0 ==> last == Section(0, 0)
    {
      if i > 0 && last.end > secs[i].start {
        return Err("sections overlap");
      }
      last := secs[i];
    }
    if last.end > size {
      return Err("section goes past end of content");
    }
    if Forward(secs) {
      CheckedFit(secs, size);
    }
    return Ok(true);
  }

  // ----- what is indexed of a document -----

  function FirstZero(s: seq<byte>): int {
    if s == [] then -1 else if s[0] == 0 then 0 else if FirstZero(s[1..]) < 0 then -1 else FirstZero(s[1..]) + 1
  }

  lemma {:induction false} FirstZeroIs(s: seq<byte>, i: int)
    requires -1 <= i < |s| && (i >= 0 ==> s[i] == 0) && forall k :: 0 <= k < |s| && (i == -1 || k < i) ==> s[k] != 0
    ensures FirstZero(s) == i
  {
    if s != [] && s[0] != 0 {
      FirstZeroIs(s[1..], if i < 0 then -1 else i - 1);
    }
  }

  /** Binary documents and documents with a reason to be skipped are replaced by a note (indexbuilder.go:336-344). */
  function Indexed(doc: Document, decimal: int -> seq<byte>): Document {
    var binary := FirstZero(doc.content) >= 0;
    var reason := if binary then BinaryReason(decimal, FirstZero(doc.content)) else doc.skipReason;
    var language := if binary then "binary" else doc.language;
    if reason != [] then doc.(skipReason := reason, language := language, content := NotIndexedMarker + reason, symbols := [])
    else doc.(skipReason := reason, language := language)
  }

  ghost predicate IsFirstZero(s: seq<byte>, i: int) {
    0 <= i < |s| && s[i] == 0 && forall k :: 0 <= k < i ==> s[k] != 0
  }

  /**
   * What is recorded of a document: of a binary one a note with the place of its first zero byte, and "binary" as its
   * language; of one with a reason to be skipped a note with the reason; both without symbols. Any other as it is.
   */
  ghost predicate IsNoted(doc: Document, decimal: int -> seq<byte>, content: seq<byte>, symbols: seq<Section>, language: string) {
    && (0 in doc.content ==>
          && language == "binary" && symbols == []
          && forall i :: IsFirstZero(doc.content, i) ==>
               content == Ascii("NOT-INDEXED: ") + Ascii("binary content at byte offset ") + decimal(i))
    && (0 !in doc.content && doc.skipReason != [] ==>
          content == Ascii("NOT-INDEXED: ") + doc.skipReason && symbols == [] && language == doc.language)
    && (0 !in doc.content && doc.skipReason == [] ==>
          content == doc.content && multiset(symbols) == multiset(doc.symbols) && language == doc.language)
  }

  lemma {:induction false} FirstZeroFound(s: seq<byte>)
    ensures 0 in s <==> FirstZero(s) >= 0
    ensures forall i :: IsFirstZero(s, i) ==> FirstZero(s) == i
  {
    if s != [] {
      FirstZeroFound(s[1..]);
      assert s == [s[0]] + s[1..];
      forall i | IsFirstZero(s, i) ensures FirstZero(s) == i {
        if i > 0 {
          assert IsFirstZero(s[1..], i - 1);
        }
      }
    }
  }

  lemma IndexedIsNoted(doc: Document, decimal: int -> seq<byte>, secs: seq<Section>)
    requires multiset(secs) == multiset(Indexed(doc, decimal).symbols)
    ensures IsNoted(doc, decimal, Indexed(doc, decimal).content, secs, Indexed(doc, decimal).language)
    ensures Indexed(doc, decimal).name == doc.name && Indexed(doc, decimal).branches == doc.branches
    ensures Indexed(doc, decimal).subRepositoryPath == doc.subRepositoryPath
  {
    hide FirstZero, Ascii;
    FirstZeroFound(doc.content);
    var noted := Indexed(doc, decimal);
    if noted.symbols == [] {
      assert |multiset(secs)| == |secs| == 0;
    }
    forall i | IsFirstZero(doc.content, i)
      ensures noted.content == Ascii("NOT-INDEXED: ") + Ascii("binary content at byte offset ") + decimal(i)
    {
      assert FirstZero(doc.content) == i;
    }
  }

  // ----- languages -----

  /** Documents have the codes of their languages, and different languages different codes. */
  ghost predicate LanguagesOk(codes: map<string, nat>, languages: seq<nat>, docLanguages: seq<string>) {
    && |languages| == |docLanguages|
    && (forall l :: l in codes ==> codes[l] < |codes| <= 255)
    && (forall l, m :: l in codes && m in codes && l != m ==> codes[l] != codes[m])
    && (forall d :: 0 <= d < |languages| ==> docLanguages[d] in codes && languages[d] == codes[docLanguages[d]])
  }

  lemma NewLanguage(codes: map<string, nat>, languages: seq<nat>, docLanguages: seq<string>, l: string)
    requires LanguagesOk(codes, languages, docLanguages) && l !in codes && |codes| < 255
    ensures LanguagesOk(codes[l := |codes|], languages, docLanguages)
  {
    var more := codes[l := |codes|];
    assert more.Keys == codes.Keys + {l};
    assert |more| == |more.Keys| && |codes| == |codes.Keys|;
  }

  /** A language query selects the documents in that language. */
  lemma LanguageSelects(codes: map<string, nat>, languages: seq<nat>, docLanguages: seq<string>, l: string, d: nat)
    requires LanguagesOk(codes, languages, docLanguages) && d < |languages|
    ensures (l in codes && languages[d] == codes[l]) <==> docLanguages[d] == l
  {
  }

  // ----- branches -----

  function Twice(x: bv64): bv64 {
    x << 1
  }

  /** The bit of branch `i`: 1 << i. */
  function Bit(i: nat): bv64
    requires i < 64
  {
    if i == 0 then 1 else Twice(Bit(i - 1))
  }

  const TopBit: bv64 := 0x8000_0000_0000_0000

  lemma BitsDiffer(i: nat, j: nat)
    requires i < 64 && j < 64
    ensures A.Overlaps(Bit(i), Bit(j)) <==> i == j
  {
    hide A.Overlaps, Bit;
    if i == j {
      OneBit(i);
    } else if i < j {
      TwoBits(i, j);
    } else {
      TwoBits(j, i);
      A.OverlapsSwap(Bit(i), Bit(j));
    }
  }

  lemma {:induction false} TwoBits(i: nat, j: nat)
    requires i < j < 64
    ensures !A.Overlaps(Bit(i), Bit(j))
  {
    hide A.Overlaps, Twice;
    if i == 0 {
      LowestBit(Bit(j - 1));
    } else {
      TwoBits(i - 1, j - 1);
      BothTwice(Bit(i - 1), Bit(j - 1));
    }
  }

  lemma LowestBit(x: bv64)
    ensures !A.Overlaps(1, Twice(x))
  {
  }

  lemma BothTwice(x: bv64, y: bv64)
    requires !A.Overlaps(x, y)
    ensures !A.Overlaps(Twice(x), Twice(y))
  {
  }

  lemma {:induction false} OneBit(i: nat)
    requires i < 64
    ensures A.Overlaps(Bit(i), Bit(i))
  {
    hide A.Overlaps, Twice;
    if i == 0 {
      FirstOverlaps();
    } else {
      OneBit(i - 1);
      TwoBits(i - 1, 63);
      LastBit();
      StillThere(Bit(i - 1));
    }
  }

  lemma FirstOverlaps()
    ensures A.Overlaps(1, 1)
  {
  }

  lemma LastBit()
    ensures Bit(63) == TopBit
  {
    hide Twice;
    SevenOn(0, 1);
    SevenOn(7, 0x80);
    SevenOn(14, 0x4000);
    SevenOn(21, 0x20_0000);
    SevenOn(28, 0x1000_0000);
    SevenOn(35, 0x8_0000_0000);
    SevenOn(42, 0x400_0000_0000);
    SevenOn(49, 0x2_0000_0000_0000);
    SevenOn(56, 0x100_0000_0000_0000);
  }

  lemma SevenOn(i: nat, x: bv64)
    requires i + 7 < 64 && Bit(i) == x
    ensures Bit(i + 7) == x << 7
  {
    hide Twice;
    assert Bit(i + 1) == Twice(x) && Bit(i + 2) == Twice(Twice(x));
    assert Bit(i + 3) == Twice(Bit(i + 2)) && Bit(i + 4) == Twice(Bit(i + 3)) && Bit(i + 5) == Twice(Bit(i + 4));
    assert Bit(i + 6) == Twice(Bit(i + 5)) && Bit(i + 7) == Twice(Bit(i + 6));
    SevenTimes(x);
  }

  lemma SevenTimes(x: bv64)
    ensures Twice(Twice(Twice(Twice(Twice(Twice(Twice(x))))))) == x << 7
  {
  }

  lemma StillThere(x: bv64)
    requires A.Overlaps(x, x) && !A.Overlaps(x, TopBit)
    ensures A.Overlaps(Twice(x), Twice(x))
  {
  }

  /** The position of the first branch of that name. */
  function BranchIndex(branches: seq<string>, br: string): (i: int)
    ensures -1 <= i < |branches| && (i >= 0 ==> branches[i] == br) && (i < 0 ==> br !in branches)
  {
    if branches == [] then -1 else if branches[0] == br then 0
    else if BranchIndex(branches[1..], br) < 0 then -1 else BranchIndex(branches[1..], br) + 1
  }

  /** The bits of the named branches. */
  function MaskOf(branches: seq<string>, names: seq<string>): bv64
    requires |branches| <= 64
  {
    if names == [] then 0
    else
      var i := BranchIndex(branches, names[|names| - 1]);
      A.Join(MaskOf(branches, names[..|names| - 1]), if i < 0 then 0 else Bit(i))
  }

  /** A mask shows exactly the branches of the document, each at the first place of its name. */
  lemma {:induction false} MaskShows(branches: seq<string>, names: seq<string>, i: nat)
    requires |branches| <= 64 && i < |branches|
    ensures A.Overlaps(Bit(i), MaskOf(branches, names)) <==> branches[i] in names && BranchIndex(branches, branches[i]) == i
  {
    hide A.Overlaps, A.Join, Bit;
    if names == [] {
      OverlapsNothing(Bit(i));
    } else {
      var n := |names| - 1;
      MaskShows(branches, names[..n], i);
      var j := BranchIndex(branches, names[n]);
      assert names == names[..n] + [names[n]];
      A.OverlapsJoin(Bit(i), MaskOf(branches, names[..n]), if j < 0 then 0 else Bit(j));
      if j < 0 {
        OverlapsNothing(Bit(i));
      } else {
        BitsDiffer(i, j);
      }
    }
  }

  lemma OverlapsNothing(a: bv64)
    ensures !A.Overlaps(a, 0)
  {
  }

  // ----- the builder -----

  class IndexBuilder {
    var contentStrings: seq<seq<byte>>
    var nameStrings: seq<seq<byte>>
    var docSections: seq<seq<Section>>
    var runeDocSections: seq<Section>
    var checksums: seq<byte>
    var branchMasks: seq<bv64>
    var subRepos: seq<u32>
    var languageMap: map<string, nat>
    var languages: seq<nat>
    const contentPostings: PostingsBuilder
    const namePostings: PostingsBuilder

    /** The branches of the repository, and where its subrepositories are in the list of paths. */
    const branches: seq<string>
    const subRepoIndices: map<string, u32>

    /** CRC-64, the text of the reason for binary files, and whether a name lies below a subrepository's path. */
    const crc: seq<byte> -> seq<byte>
    const decimal: int -> seq<byte>
    const inSubRepo: (string, seq<byte>) -> bool

    /** The rune sections of each document, its branches and its language. */
    ghost var parts: seq<seq<Section>>
    ghost var docBranches: seq<seq<string>>
    ghost var docLanguages: seq<string>

    /** The documents, as the searcher will see them. */
    ghost function Documents(): Source
      reads this
    {
      Source(contentStrings, nameStrings, docSections)
    }

    ghost predicate Valid()
      reads this, contentPostings, namePostings
    {
      && contentPostings != namePostings
      && contentPostings.Valid() && contentPostings.files == contentStrings
      && namePostings.Valid() && namePostings.files == nameStrings
      && |nameStrings| == |contentStrings| == |docSections| == |branchMasks| == |subRepos| == |languages|
      && PartsOf(parts, runeDocSections, Documents())
      && LanguagesOk(languageMap, languages, docLanguages)
      && MasksOk(branches, branchMasks, docBranches)
    }

    constructor (branches: seq<string>, subRepoIndices: map<string, u32>, crc: seq<byte> -> seq<byte>,
                 decimal: int -> seq<byte>, inSubRepo: (string, seq<byte>) -> bool)
      requires |branches| <= 64
      ensures Valid() && contentStrings == [] && fresh(contentPostings) && fresh(namePostings)
      ensures this.branches == branches && this.subRepoIndices == subRepoIndices && this.inSubRepo == inSubRepo
      ensures this.decimal == decimal && this.crc == crc
    {
      contentStrings, nameStrings, docSections, runeDocSections, checksums := [], [], [], [], [];
      branchMasks, subRepos, languageMap, languages, parts, docLanguages, docBranches := [], [], map[], [], [], [], [];
      this.branches, this.subRepoIndices, this.crc := branches, subRepoIndices, crc;
      this.decimal, this.inSubRepo := decimal, inSubRepo;
      contentPostings := new PostingsBuilder();
      namePostings := new PostingsBuilder();
    }

    /** branchMask: one bit for each branch. */
    method BranchMask(br: string) returns (m: Option<bv64>)
      requires |branches| <= 64
      ensures m == if BranchIndex(branches, br) < 0 then None else Some(Bit(BranchIndex(branches, br)))
    {
      hide Bit;
      for i := 0 to |branches|
        invariant br !in branches[..i]
      {
        if branches[i] == br {
          FirstBranch(branches, br, i);
          return Some(Bit(i));
        }
      }
      return None;
    }

    /** The mask of a document's branches (indexbuilder.go:380-387). */
    method DocumentMask(names: seq<string>) returns (m: Option<bv64>)
      requires |branches| <= 64
      ensures m.Some? <==> forall br :: br in names ==> br in branches
      ensures m.Some? ==> m.value == MaskOf(branches, names)
    {
      hide Bit, A.Join;
      var mask: bv64 := 0;
      for i := 0 to |names|
        invariant forall k :: 0 <= k < i ==> names[k] in branches
        invariant mask == MaskOf(branches, names[..i])
      {
        var b := BranchMask(names[i]);
        if b.None? {
          return None;
        }
        assert names[..i + 1][..i] == names[..i];
        mask := A.Join(mask, b.value);
      }
      assert names[..|names|] == names;
      return Some(mask);
    }

    /** Everything about the document apart from its text is in order. */
    ghost predicate Known(doc: Document)
      reads this
    {
      && doc.subRepositoryPath in subRepoIndices
      && (forall br :: br in doc.branches ==> br in branches)
      && (doc.language in languageMap || |languageMap| < 255)
    }

    /** What Add demands of the sections, given in order of their starts. */
    ghost predicate SectionsGood(doc: Document, secs: seq<Section>)
    {
      && Apart(secs) && (secs != [] ==> secs[|secs| - 1].end <= |doc.content|)
      && (doc.subRepositoryPath != "" ==> inSubRepo(doc.subRepositoryPath, doc.name))
    }

    /** The sections can be converted, or are dropped. */
    ghost predicate Convertible(doc: Document, secs: seq<Section>) {
      !LeavesBehind(doc.content, Boundaries(secs)) && Taken(doc.content, Boundaries(secs), 0) % 2 == 0
    }

    /**
     * Add. `doc` stands for the document after Indexed, `secs` for its sections as the sort leaves them. Add succeeds
     * exactly when the sections are apart, in the text and can be converted and branches, subrepository and language
     * can be recorded. It does not check that sections end after they start; if they do, conversion succeeds exactly on
     * rune boundaries, and then all tables agree. A failure found before the text is read leaves the builder as it was.
     */
    method Add(doc0: Document) returns (r: Result<bool>, ghost secs: seq<Section>)
      requires Valid()
      requires contentPostings.endByte + |Indexed(doc0, decimal).content| < MaxU32
      requires namePostings.endByte + |doc0.name| < MaxU32
      modifies this, contentPostings, namePostings
      ensures ByStart(secs) && multiset(secs) == multiset(Indexed(doc0, decimal).symbols)
      ensures var doc := Indexed(doc0, decimal);
              r.Ok? <==> SectionsGood(doc, secs) && Convertible(doc, secs) && old(Known(doc))
      ensures var doc := Indexed(doc0, decimal);
              Forward(secs) && SectionsGood(doc, secs) ==> (Convertible(doc, secs) <==> forall b :: b in Boundaries(secs) ==> Aligned(doc.content, b))
      ensures var doc := Indexed(doc0, decimal);
              r.Ok? ==>
                && (Forward(secs) ==> Valid())
                && contentStrings == old(contentStrings) + [doc.content] && nameStrings == old(nameStrings) + [doc.name]
                && docSections == old(docSections) + [secs] && docLanguages == old(docLanguages) + [doc.language]
                && docBranches == old(docBranches) + [doc.branches] && checksums == old(checksums) + crc(doc.content)
                && doc.subRepositoryPath in subRepoIndices && subRepos == old(subRepos) + [subRepoIndices[doc.subRepositoryPath]]
      ensures IsNoted(doc0, decimal, Indexed(doc0, decimal).content, secs, Indexed(doc0, decimal).language)
      ensures r.Ok? ==>
                && |contentStrings| > 0 && |nameStrings| > 0 && |docSections| > 0 && |docLanguages| > 0 && |docBranches| > 0
                && IsNoted(doc0, decimal, contentStrings[|contentStrings| - 1], docSections[|docSections| - 1], docLanguages[|docLanguages| - 1])
                && nameStrings[|nameStrings| - 1] == doc0.name && docBranches[|docBranches| - 1] == doc0.branches
      ensures !SectionsGood(Indexed(doc0, decimal), secs) ==> Valid() && unchanged(this, contentPostings, namePostings)
    {
      hide PostingsBuilder.Valid, PartsOf, LanguagesOk, Aligned, SamePlaces, Boundaries, SectionsFit, FirstZero, Apart, ByStart, Forward, MaskOf,
        Taken, LeavesBehind, IsNoted, Ascii;
      var zero := L.IndexByte(doc0.content, 0);
      FirstZeroIs(doc0.content, zero);
      var doc := doc0;
      if zero >= 0 {
        doc := doc.(skipReason := BinaryReason(decimal, zero), language := "binary");
      }
      if doc.skipReason != [] {
        doc := doc.(content := NotIndexedMarker + doc.skipReason, symbols := []);
      }
      assert doc == Indexed(doc0, decimal);
      var sorted := SortSections(doc.symbols);
      secs := sorted;
      IndexedIsNoted(doc0, decimal, sorted);
      var checked := CheckSections(sorted, |doc.content|);
      if checked.Err? {
        return Err(checked.reason), secs;
      }
      if doc.subRepositoryPath != "" && !inSubRepo(doc.subRepositoryPath, doc.name) {
        return Err("path must start with subrepo path"), secs;
      }
      if Forward(sorted) {
        FitsConvertible(doc, sorted);
      }
      r := AddChecked(doc, sorted);
    }

    lemma FitsConvertible(doc: Document, secs: seq<Section>)
      requires SectionsFit(secs, |doc.content|)
      ensures Convertible(doc, secs) <==> forall b :: b in Boundaries(secs) ==> Aligned(doc.content, b)
      ensures Convertible(doc, secs) ==> Taken(doc.content, Boundaries(secs), 0) == |Boundaries(secs)|
    {
      hide Aligned, Taken, LeavesBehind;
      FittingTaken(doc.content, secs);
      assert |Boundaries(secs)| == 2 * |secs|;
    }

    method AddChecked(doc: Document, secs: seq<Section>) returns (r: Result<bool>)
      requires Valid()
      requires contentPostings.endByte + |doc.content| < MaxU32 && namePostings.endByte + |doc.name| < MaxU32
      modifies this, contentPostings, namePostings
      ensures r.Ok? <==> Convertible(doc, secs) && old(Known(doc))
      ensures r.Ok? ==>
                && (SectionsFit(secs, |doc.content|) ==> Valid())
                && contentStrings == old(contentStrings) + [doc.content] && nameStrings == old(nameStrings) + [doc.name]
                && docSections == old(docSections) + [secs] && docLanguages == old(docLanguages) + [doc.language]
                && docBranches == old(docBranches) + [doc.branches] && checksums == old(checksums) + crc(doc.content)
                && doc.subRepositoryPath in subRepoIndices && subRepos == old(subRepos) + [subRepoIndices[doc.subRepositoryPath]]
    {
      hide PostingsBuilder.Valid, PartsOf, LanguagesOk, Aligned, SamePlaces, Boundaries, SectionsFit, MaskOf, Taken, LeavesBehind;
      RuneCountIs(contentPostings);
      ghost var base := contentPostings.runeCount;
      var runeSecs := contentPostings.NewSearchableString(doc.content, secs);
      if runeSecs.Err? {
        return Err(runeSecs.reason);
      }
      if SectionsFit(secs, |doc.content|) {
        FitsConvertible(doc, secs);
        WholeSeq(Boundaries(secs));
      }
      var nameSecs := namePostings.NewSearchableString(doc.name, []);
      if nameSecs.Err? {
        // A name has no sections, so nothing of it can be left behind.
        NothingTaken(doc.name);
        assert false;
      }
      if doc.subRepositoryPath !in subRepoIndices {
        return Err("unknown subrepo path");
      }
      var mask := DocumentMask(doc.branches);
      if mask.None? {
        return Err("no branch found");
      }
      r := Record(doc, secs, runeSecs.value, mask.value);
    }

    /** The tables of the document (indexbuilder.go:389-410). Too many languages are found out when most is recorded. */
    method Record(doc: Document, secs: seq<Section>, runeSecs: seq<Section>, mask: bv64) returns (r: Result<bool>)
      requires contentPostings != namePostings && contentPostings.Valid() && namePostings.Valid()
      requires contentPostings.files == contentStrings + [doc.content] && namePostings.files == nameStrings + [doc.name]
      requires |nameStrings| == |contentStrings| == |docSections| == |branchMasks| == |subRepos| == |languages|
      requires PartsOf(parts, runeDocSections, Documents()) && LanguagesOk(languageMap, languages, docLanguages)
      requires SectionsFit(secs, |doc.content|) ==>
                 SamePlaces(doc.content, |Flat(Tokenize(contentStrings))|, Boundaries(secs), Boundaries(runeSecs))
      requires doc.subRepositoryPath in subRepoIndices
      requires MasksOk(branches, branchMasks, docBranches) && mask == MaskOf(branches, doc.branches)
      modifies this
      ensures r.Ok? <==> doc.language in old(languageMap) || |old(languageMap)| < 255
      ensures r.Ok? ==>
                && (SectionsFit(secs, |doc.content|) ==> Valid())
                && contentStrings == old(contentStrings) + [doc.content] && nameStrings == old(nameStrings) + [doc.name]
                && docSections == old(docSections) + [secs] && docLanguages == old(docLanguages) + [doc.language]
                && docBranches == old(docBranches) + [doc.branches] && checksums == old(checksums) + crc(doc.content)
                && doc.subRepositoryPath in subRepoIndices && subRepos == old(subRepos) + [subRepoIndices[doc.subRepositoryPath]]
    {
      hide PostingsBuilder.Valid, PartsOf, LanguagesOk, SamePlaces, Boundaries, SectionsFit, Flat, Tokenize, MaskOf, MasksOk;
      RecordText(doc, secs, runeSecs, mask);
      r := RecordLanguage(doc.language);
    }

    method RecordText(doc: Document, secs: seq<Section>, runeSecs: seq<Section>, mask: bv64)
      requires PartsOf(parts, runeDocSections, Documents()) && doc.subRepositoryPath in subRepoIndices
      requires SectionsFit(secs, |doc.content|) ==>
                 SamePlaces(doc.content, |Flat(Tokenize(contentStrings))|, Boundaries(secs), Boundaries(runeSecs))
      requires MasksOk(branches, branchMasks, docBranches) && mask == MaskOf(branches, doc.branches)
      modifies this`subRepos, this`contentStrings, this`runeDocSections, this`parts, this`nameStrings, this`docSections, this`branchMasks,
        this`docBranches, this`checksums
      ensures SectionsFit(secs, |doc.content|) ==> PartsOf(parts, runeDocSections, Documents())
      ensures MasksOk(branches, branchMasks, docBranches) && branchMasks == old(branchMasks) + [mask]
      ensures contentStrings == old(contentStrings) + [doc.content] && nameStrings == old(nameStrings) + [doc.name]
      ensures docSections == old(docSections) + [secs] && docBranches == old(docBranches) + [doc.branches]
      ensures checksums == old(checksums) + crc(doc.content) && subRepos == old(subRepos) + [subRepoIndices[doc.subRepositoryPath]]
    {
      hide PartsOf, SamePlaces, Boundaries, SectionsFit, Flat, Tokenize, MaskOf, MasksOk;
      if SectionsFit(secs, |doc.content|) {
        PartsGrow(parts, runeDocSections, Documents(), doc, secs, runeSecs);
      }
      MasksGrow(branches, branchMasks, docBranches, doc.branches);
      subRepos := subRepos + [subRepoIndices[doc.subRepositoryPath]];
      contentStrings := contentStrings + [doc.content];
      runeDocSections := runeDocSections + runeSecs;
      parts := parts + [runeSecs];
      nameStrings := nameStrings + [doc.name];
      docSections := docSections + [secs];
      branchMasks := branchMasks + [mask];
      docBranches := docBranches + [doc.branches];
      checksums := checksums + crc(doc.content);
    }

    method RecordLanguage(language: string) returns (r: Result<bool>)
      requires LanguagesOk(languageMap, languages, docLanguages)
      modifies this`languageMap, this`languages, this`docLanguages
      ensures r.Ok? <==> language in old(languageMap) || |old(languageMap)| < 255
      ensures r.Ok? ==> LanguagesOk(languageMap, languages, docLanguages) && docLanguages == old(docLanguages) + [language]
      ensures r.Ok? ==> |languages| == |old(languages)| + 1
    {
      hide LanguagesOk;
      if language !in languageMap {
        if |languageMap| >= 255 {
          return Err("too many languages");
        }
        NewLanguage(languageMap, languages, docLanguages, language);
        languageMap := languageMap[language := |languageMap|];
      }
      KnownLanguage(languageMap, languages, docLanguages, language);
      languages := languages + [languageMap[language]];
      docLanguages := docLanguages + [language];
      return Ok(true);
    }
  }

  lemma MasksGrow(branches: seq<string>, masks: seq<bv64>, docBranches: seq<seq<string>>, names: seq<string>)
    requires MasksOk(branches, masks, docBranches)
    ensures MasksOk(branches, masks + [MaskOf(branches, names)], docBranches + [names])
  {
    hide MaskOf;
  }

  lemma KnownLanguage(codes: map<string, nat>, languages: seq<nat>, docLanguages: seq<string>, l: string)
    requires LanguagesOk(codes, languages, docLanguages) && l in codes
    ensures LanguagesOk(codes, languages + [codes[l]], docLanguages + [l])
  {
  }

  lemma PartsGrow(parts: seq<seq<Section>>, secs: seq<Section>, src: Source, doc: Document, symbols: seq<Section>, part: seq<Section>)
    requires PartsOf(parts, secs, src) && SectionsFit(symbols, |doc.content|)
    requires SamePlaces(doc.content, |Flat(Tokenize(src.contents))|, Boundaries(symbols), Boundaries(part))
    ensures PartsOf(parts + [part], secs + part,
                    Source(src.contents + [doc.content], src.names + [doc.name], src.symbols + [symbols]))
  {
    hide SamePlaces, Boundaries, SectionsFit, Flat, Tokenize, Tokens;
    var src' := Source(src.contents + [doc.content], src.names + [doc.name], src.symbols + [symbols]);
    var n := |parts|;
    TokenizeAppend(src.contents, doc.content);
    var docs := Tokenize(src.contents);
    forall d | 0 <= d <= n ensures DocSectionsConverted((parts + [part])[d], src', d) {
      StartOfPrefix(docs, [Tokens(doc.content)], d);
      if d == n {
        TokenizeSize(src.contents);
        assert docs[..n] == docs;
      } else {
        assert DocSectionsConverted(parts[d], src, d);
      }
    }
    assert (parts + [part])[..n] == parts;
  }

  lemma TokenizeSize(files: seq<seq<byte>>)
    ensures |Tokenize(files)| == |files|
  {
  }

  lemma RuneCountIs(p: PostingsBuilder)
    requires p.Valid()
    ensures p.runeCount == |Flat(Tokenize(p.files))|
  {
  }

  lemma {:induction false} FirstBranch(branches: seq<string>, br: string, i: nat)
    requires i < |branches| && branches[i] == br && br !in branches[..i]
    ensures BranchIndex(branches, br) == i
  {
    if i > 0 {
      assert branches[..i][0] == branches[0];
      assert branches[1..][..i - 1] == branches[..i][1..];
      FirstBranch(branches[1..], br, i - 1);
    }
  }

  lemma WholeSeq(bs: seq<u32>)
    ensures bs[..|bs|] == bs
  {
  }

  /** Without sections nothing is left behind. */
  lemma NothingTaken(data: seq<byte>)
    ensures !LeavesBehind(data, Boundaries([])) && Taken(data, Boundaries([]), 0) == 0
  {
  }

  /** The masks of the documents are those of their branches. */
  ghost predicate MasksOk(branches: seq<string>, masks: seq<bv64>, docBranches: seq<seq<string>>) {
    && |branches| <= 64 && |masks| == |docBranches|
    && forall d :: 0 <= d < |masks| ==> masks[d] == MaskOf(branches, docBranches[d])
  }

  /** The rune sections of the builder, document by document. */
  ghost predicate PartsOf(parts: seq<seq<Section>>, secs: seq<Section>, src: Source) {
    && |parts| == |src.contents| == |src.symbols| && secs == JoinAll(parts)
    && forall d :: 0 <= d < |parts| ==> DocSectionsConverted(parts[d], src, d)
  }
}
