/** The table of contents at the end of a shard file (toc.go, write.go:26-32, read.go:61-92). */
module TableOfContents {
  import opened Machine
  import opened SectionFile

  /** A section as the table lists it. */
  datatype Entry = One(s: Simple) | Many(c: Compound)

  datatype Toc = Toc(
    fileContents: Compound, fileNames: Compound, fileSections: Compound, postings: Compound, newlines: Compound,
    ngramText: Simple, runeOffsets: Simple, fileEndRunes: Simple, languages: Simple,
    branchMasks: Simple, subRepos: Simple,
    nameNgramText: Simple, namePostings: Compound, nameRuneOffsets: Simple,
    metaData: Simple, repoMetaData: Simple, nameEndRunes: Simple, contentChecksums: Simple, runeDocSections: Simple)
  {
    /** sections: the order in which the table is written and read. */
    function Sections(): seq<Entry> {
      [ One(metaData), One(repoMetaData), Many(fileContents), Many(fileNames), Many(fileSections), Many(newlines),
        One(ngramText), Many(postings), One(nameNgramText), Many(namePostings), One(branchMasks), One(subRepos),
        One(runeOffsets), One(nameRuneOffsets), One(fileEndRunes), One(nameEndRunes), One(contentChecksums),
        One(languages), One(runeDocSections) ]
    }
  }

  const SectionCount: nat := 19

  /** Which of the sections are compound. */
  predicate IsMany(i: nat) {
    2 <= i <= 5 || i == 7 || i == 9
  }

  predicate WellKinded(es: seq<Entry>) {
    |es| == SectionCount && forall i :: 0 <= i < |es| ==> es[i].Many? == IsMany(i)
  }

  function TocFrom(es: seq<Entry>): (t: Toc)
    requires WellKinded(es)
  {
    Toc(es[2].c, es[3].c, es[4].c, es[7].c, es[5].c, es[6].s, es[12].s, es[14].s, es[17].s, es[10].s, es[11].s,
        es[8].s, es[9].c, es[13].s, es[0].s, es[1].s, es[15].s, es[16].s, es[18].s)
  }

  /** Reading puts every section back where writing took it from. */
  lemma SameOrder(t: Toc)
    ensures WellKinded(t.Sections()) && TocFrom(t.Sections()) == t
  {
  }

  function SimpleBytes(s: Simple): (b: seq<byte>)
    ensures |b| == 8
  {
    U32Bytes(s.off) + U32Bytes(s.sz)
  }

  function EntryBytes(e: Entry): seq<byte> {
    match e
    case One(s) => SimpleBytes(s)
    case Many(c) => SimpleBytes(c.data) + SimpleBytes(c.index)
  }

  function EntryParts(es: seq<Entry>): (r: seq<seq<byte>>)
    ensures |r| == |es| && forall i :: 0 <= i < |es| ==> r[i] == EntryBytes(es[i])
  {
    if es == [] then [] else EntryParts(es[..|es| - 1]) + [EntryBytes(es[|es| - 1])]
  }

  function TocBytes(t: Toc): seq<byte> {
    U32Bytes(SectionCount) + JoinAll(EntryParts(t.Sections()))
  }

  /** writeTOC. */
  method WriteTOC(t: Toc) returns (b: seq<byte>)
    ensures b == TocBytes(t)
  {
    hide EntryBytes;
    var secs := t.Sections();
    b := U32Bytes(|secs|);
    ghost var head := b;
    for i := 0 to |secs|
      invariant b == head + JoinAll(EntryParts(secs[..i]))
    {
      assert secs[..i + 1][..i] == secs[..i];
      JoinOne(EntryParts(secs[..i]), EntryBytes(secs[i]));
      b := b + EntryBytes(secs[i]);
    }
    assert secs[..|secs|] == secs;
  }

  // ----- reading -----

  /** The index of a compound section reads back as its offsets. */
  ghost predicate IndexReads(file: seq<byte>, e: Entry) {
    e.Many? ==> ReadAt(file, e.c.index) == Ok(U32s(e.c.offsets))
  }

  /** The file ends with the table and with the section that says where the table is. */
  ghost predicate EndsWith(file: seq<byte>, t: Toc) {
    && 8 <= |file| <= MaxU32
    && (exists s: Simple :: file[|file| - 8..] == SimpleBytes(s) && ReadAt(file, s) == Ok(TocBytes(t)))
    && forall i :: 0 <= i < SectionCount ==> IndexReads(file, t.Sections()[i])
  }

  /** The entry stands at `off`. */
  ghost predicate EntryAt(file: seq<byte>, off: int, e: Entry) {
    && 0 <= off && off + |EntryBytes(e)| <= |file|
    && file[off..off + |EntryBytes(e)|] == EntryBytes(e) && IndexReads(file, e)
  }

  function ReadU32(file: seq<byte>, off: int): Result<u32> {
    if 0 <= off && off + 4 <= |file| then Ok(U32Of(file[off..off + 4])) else Err("read past end")
  }

  /** simpleSection.read. */
  method ReadSimple(file: seq<byte>, off: int, ghost s: Simple) returns (r: Result<Simple>)
    ensures 0 <= off && off + 8 <= |file| && file[off..off + 8] == SimpleBytes(s) ==> r == Ok(s)
  {
    if 0 <= off && off + 8 <= |file| && file[off..off + 8] == SimpleBytes(s) {
      TwoNumbers(file, off, s);
    }
    var a := ReadU32(file, off);
    if a.Err? {
      return Err(a.reason);
    }
    var b := ReadU32(file, off + 4);
    if b.Err? {
      return Err(b.reason);
    }
    return Ok(Simple(a.value, b.value));
  }

  lemma TwoNumbers(file: seq<byte>, off: nat, s: Simple)
    requires off + 8 <= |file| && file[off..off + 8] == SimpleBytes(s)
    ensures ReadU32(file, off) == Ok(s.off) && ReadU32(file, off + 4) == Ok(s.sz)
  {
    hide U32Bytes, U32Of;
    assert file[off..off + 4] == file[off..off + 8][..4];
    assert file[off + 4..off + 8] == file[off..off + 8][4..];
    assert SimpleBytes(s)[..4] == U32Bytes(s.off) && SimpleBytes(s)[4..] == U32Bytes(s.sz);
    U32RoundTrip(s.off);
    U32RoundTrip(s.sz);
  }

  /** compoundSection.read, and simpleSection.read for the others. */
  method ReadEntry(file: seq<byte>, off: int, many: bool, ghost e: Entry) returns (r: Result<Entry>, off': int)
    ensures off' == off + if many then 16 else 8
    ensures r.Ok? ==> r.value.Many? == many
    ensures many == e.Many? && EntryAt(file, off, e) ==> r == Ok(e)
  {
    hide SimpleBytes, U32s;
    off' := off + if many then 16 else 8;
    ghost var here := many == e.Many? && EntryAt(file, off, e);
    if !many {
      var s := ReadSimple(file, off, if e.One? then e.s else Simple(0, 0));
      r := if s.Ok? then Ok(One(s.value)) else Err(s.reason);
      return;
    }
    ghost var c := if e.Many? then e.c else Compound(Simple(0, 0), [], Simple(0, 0));
    if here {
      TwoSections(file, off, c);
    }
    var data := ReadSimple(file, off, c.data);
    if data.Err? {
      return Err(data.reason), off';
    }
    var index := ReadSimple(file, off + 8, c.index);
    if index.Err? {
      return Err(index.reason), off';
    }
    if index.value.sz % 4 != 0 {
      if here {
        IndexSize(file, c);
      }
      return Err("section size % 4 != 0"), off';
    }
    var blob := ReadAt(file, index.value);
    if blob.Err? {
      return Err(blob.reason), off';
    }
    var offsets := ReadU32s(blob.value, c.offsets);
    return Ok(Many(Compound(data.value, offsets, index.value))), off';
  }

  lemma TwoSections(file: seq<byte>, off: nat, c: Compound)
    requires off + 16 <= |file| && file[off..off + 16] == SimpleBytes(c.data) + SimpleBytes(c.index)
    ensures file[off..off + 8] == SimpleBytes(c.data) && file[off + 8..off + 16] == SimpleBytes(c.index)
  {
    assert file[off..off + 8] == file[off..off + 16][..8];
    assert file[off + 8..off + 16] == file[off..off + 16][8..];
  }

  lemma IndexSize(file: seq<byte>, c: Compound)
    requires ReadAt(file, c.index) == Ok(U32s(c.offsets))
    ensures c.index.sz % 4 == 0
  {
  }

  /** Where entry `i` of the table stands, if the table starts at `start`. */
  ghost function EntryOff(t: Toc, start: int, i: nat): int
    requires i <= SectionCount
  {
    start + 4 + |JoinAll(EntryParts(t.Sections())[..i])|
  }

  lemma EntryStands(file: seq<byte>, t: Toc, s: Simple, i: nat)
    requires ReadAt(file, s) == Ok(TocBytes(t)) && i < SectionCount && IndexReads(file, t.Sections()[i])
    ensures EntryAt(file, EntryOff(t, s.off, i), t.Sections()[i])
    ensures EntryOff(t, s.off, i + 1) == EntryOff(t, s.off, i) + |EntryBytes(t.Sections()[i])|
  {
    hide JoinAll, EntryBytes;
    var parts := EntryParts(t.Sections());
    JoinSplit(parts, i);
    assert parts[..i + 1] == parts[..i] + [parts[i]];
    JoinOne(parts[..i], parts[i]);
    var a, b, c := JoinAll(parts[..i]), parts[i], JoinAll(parts[i + 1..]);
    assert TocBytes(t) == (U32Bytes(SectionCount) + a) + b + c;
    Inner(file, s.off, U32Bytes(SectionCount) + a, b, c);
  }

  lemma Inner(file: seq<byte>, off: nat, a: seq<byte>, b: seq<byte>, c: seq<byte>)
    requires off + |a| + |b| + |c| <= |file| && file[off..off + |a| + |b| + |c|] == a + b + c
    ensures file[off + |a|..off + |a| + |b|] == b
  {
    var piece := file[off..off + |a| + |b| + |c|];
    assert piece[|a|..|a| + |b|] == b;
    assert forall k :: |a| <= k < |a| + |b| ==> piece[k] == file[off + k];
  }

  lemma CountStands(file: seq<byte>, t: Toc, s: Simple)
    requires ReadAt(file, s) == Ok(TocBytes(t))
    ensures ReadU32(file, s.off) == Ok(SectionCount)
  {
    hide U32Bytes, U32Of;
    var rest := JoinAll(EntryParts(t.Sections()));
    var n := U32Bytes(SectionCount);
    assert TocBytes(t) == [] + n + rest;
    Inner(file, s.off, [], n, rest);
    assert file[s.off..s.off + 4] == n;
    U32RoundTrip(SectionCount);
  }

  /** readTOC: what writeTOC has written comes back. */
  method ReadTOC(file: seq<byte>, ghost t: Toc) returns (r: Result<Toc>)
    ensures EndsWith(file, t) ==> r == Ok(t)
  {
    hide TocBytes, EntryParts, SimpleBytes, EntryBytes, EntryAt, EntryOff, IndexReads;
    ghost var ends := EndsWith(file, t);
    ghost var at: Simple := Simple(0, 0);
    if ends {
      at :| file[|file| - 8..] == SimpleBytes(at) && ReadAt(file, at) == Ok(TocBytes(t));
      CountStands(file, t, at);
    }
    var tocSection := ReadSimple(file, |file| - 8, at);
    if tocSection.Err? {
      return Err(tocSection.reason);
    }
    var off: int := tocSection.value.off;
    var count := ReadU32(file, off);
    if count.Err? {
      return Err(count.reason);
    }
    if count.value != SectionCount {
      return Err("section count mismatch");
    }
    off := off + 4;
    var es: seq<Entry> := [];
    if ends {
      FirstEntry(t, at.off);
    }
    for i := 0 to SectionCount
      invariant |es| == i && forall k :: 0 <= k < i ==> es[k].Many? == IsMany(k)
      invariant ends ==> off == EntryOff(t, at.off, i) && es == t.Sections()[..i]
    {
      if ends {
        EntryStands(file, t, at, i);
        SameOrder(t);
        EntrySize(t.Sections()[i]);
      }
      var e;
      e, off := ReadEntry(file, off, IsMany(i), t.Sections()[i]);
      if e.Err? {
        return Err(e.reason);
      }
      es := es + [e.value];
    }
    SameOrder(t);
    return Ok(TocFrom(es));
  }

  lemma EntrySize(e: Entry)
    ensures |EntryBytes(e)| == if e.Many? then 16 else 8
  {
  }

  lemma FirstEntry(t: Toc, start: int)
    ensures EntryOff(t, start, 0) == start + 4
  {
    assert EntryParts(t.Sections())[..0] == [];
  }
}
