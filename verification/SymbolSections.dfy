/** Symbol sections in runes of the corpus denote the same text as the byte sections of the documents. */
module SymbolSections {
  import opened Machine
  import opened Utf8
  import opened Corpus
  import opened DeltaCodec
  import opened Postings
  import opened SectionFilter
  import opened ShardIndex
  import D = DocIterators

  lemma {:induction false} BoundaryAt(secs: seq<Section>, i: nat)
    requires i < |secs|
    ensures Boundaries(secs)[2 * i] == secs[i].start && Boundaries(secs)[2 * i + 1] == secs[i].end
  {
    if i > 0 {
      BoundaryAt(secs[1..], i - 1);
      assert Boundaries(secs)[2..] == Boundaries(secs[1..]);
    }
  }

  /** The section lies inside document `d`. */
  ghost predicate SectionIn(s: Section, docs: Docs, d: nat) {
    d < |docs| && Start(docs, d) <= s.start <= s.end <= Start(docs, d + 1)
  }

  /** A rune section counted from `base` and a byte section mark the same stretch of the text. */
  ghost predicate MarksSame(s: Section, t: Section, text: seq<byte>, base: nat) {
    base <= s.start <= s.end && Offset(text, s.start - base) == t.start && Offset(text, s.end - base) == t.end
  }

  /** The sections of one document: inside it, in order, and each the image of the byte section. */
  lemma PartFacts(part: seq<Section>, src: Source, d: nat)
    requires d < |src.contents| && d < |src.symbols| && DocSectionsConverted(part, src, d)
    ensures |part| == |src.symbols[d]|
    ensures forall i :: 0 <= i < |part| ==> SectionIn(part[i], Tokenize(src.contents), d)
    ensures forall i, j :: 0 <= i < j < |part| ==> part[i].end <= part[j].start
    ensures forall i :: 0 <= i < |part| ==>
              MarksSame(part[i], src.symbols[d][i], src.contents[d], Start(Tokenize(src.contents), d))
  {
    hide Tokens, Flat, Offset;
    var text, base := src.contents[d], Start(Tokenize(src.contents), d);
    var bs, rs := Boundaries(src.symbols[d]), Boundaries(part);
    assert |part| == |src.symbols[d]|;
    StartStep(Tokenize(src.contents), d);
    forall x, y | 0 <= x < y < |rs| ensures rs[x] <= rs[y] {
      assert bs[x] <= bs[y];
      OffsetInjective(text, rs[x] - base, rs[y] - base);
    }
    forall i | 0 <= i < |part|
      ensures SectionIn(part[i], Tokenize(src.contents), d)
      ensures MarksSame(part[i], src.symbols[d][i], text, base)
    {
      BoundaryAt(part, i);
      BoundaryAt(src.symbols[d], i);
      assert rs[2 * i] <= rs[2 * i + 1];
    }
    forall i, j | 0 <= i < j < |part| ensures part[i].end <= part[j].start {
      BoundaryAt(part, i);
      BoundaryAt(part, j);
      assert rs[2 * i + 1] <= rs[2 * j];
    }
  }

  /** The parts are in order and each inside its document. */
  ghost predicate PartsOk(parts: seq<seq<Section>>, docs: Docs) {
    && |parts| <= |docs|
    && (forall d, i :: 0 <= d < |parts| && 0 <= i < |parts[d]| ==> SectionIn(parts[d][i], docs, d))
    && (forall d, i, j :: 0 <= d < |parts| && 0 <= i < j < |parts[d]| ==> parts[d][i].end <= parts[d][j].start)
  }

  /** A section of the concatenation is a section of one part, and the other way round. */
  lemma {:induction false} ConcatMember(parts: seq<seq<Section>>, s: Section)
    ensures s in JoinAll(parts) <==> exists d :: 0 <= d < |parts| && s in parts[d]
  {
    if parts != [] {
      var init, last := parts[..|parts| - 1], parts[|parts| - 1];
      ConcatMember(init, s);
      if s in JoinAll(init) {
        var d :| 0 <= d < |init| && s in init[d];
        assert s in parts[d];
      }
      if s in last {
        assert s in parts[|parts| - 1];
      }
      if d :| 0 <= d < |parts| && s in parts[d] {
        assert d < |init| ==> s in init[d];
      }
    }
  }

  lemma {:induction false} ConcatOrdered(parts: seq<seq<Section>>, docs: Docs)
    requires PartsOk(parts, docs)
    ensures forall i :: 0 <= i < |JoinAll(parts)| ==> JoinAll(parts)[i].end <= Start(docs, |parts|)
    ensures forall i, j :: 0 <= i < j < |JoinAll(parts)| ==> JoinAll(parts)[i].end <= JoinAll(parts)[j].start
  {
    hide Start;
    if parts != [] {
      var init, last := parts[..|parts| - 1], parts[|parts| - 1];
      ConcatOrdered(init, docs);
      StartMonotone(docs, |init|, |parts|);
      forall i | 0 <= i < |last| ensures SectionIn(last[i], docs, |init|) {
        assert SectionIn(parts[|init|][i], docs, |init|);
      }
      var a := JoinAll(init);
      assert JoinAll(parts) == a + last;
      forall i, j | 0 <= i < j < |a + last| ensures (a + last)[i].end <= (a + last)[j].start {
        if j >= |a| && i >= |a| {
          assert parts[|init|][i - |a|].end <= parts[|init|][j - |a|].start;
        }
      }
    }
  }

  lemma SectionsAreOk(parts: seq<seq<Section>>, docs: Docs)
    requires PartsOk(parts, docs) && |parts| == |docs| && |Flat(docs)| <= MaxU32
    ensures SectionsOk(JoinAll(parts), U32Ends(docs))
  {
    hide Start, JoinAll;
    var secs, ends := JoinAll(parts), U32Ends(docs);
    ConcatOrdered(parts, docs);
    forall i | 0 <= i < |secs|
      ensures secs[i].start <= secs[i].end
      ensures forall d :: 0 <= d <= |ends| && secs[i].start < D.StartOf(ends, d) ==> secs[i].end <= D.StartOf(ends, d)
    {
      ConcatMember(parts, secs[i]);
      assert secs[i] in secs;
      var e :| 0 <= e < |parts| && secs[i] in parts[e];
      assert SectionIn(secs[i], docs, e);
      forall d | 0 <= d <= |ends| && secs[i].start < D.StartOf(ends, d) ensures secs[i].end <= D.StartOf(ends, d) {
        StartOfIsStart(docs, d);
        if d <= e {
          StartMonotone(docs, d, e);
        } else {
          StartMonotone(docs, e + 1, d);
        }
      }
    }
  }

  ghost function U32Ends(docs: Docs): (ends: seq<u32>)
    requires |Flat(docs)| <= MaxU32
    ensures ends == Ends(docs)
  {
    EndsNondecreasing(docs);
    Ends(docs)
  }

  lemma StartOfIsStart(docs: Docs, d: nat)
    requires d <= |docs| && |Flat(docs)| <= MaxU32
    ensures D.StartOf(U32Ends(docs), d) == Start(docs, d)
  {
    hide Flat;
    StartZero(docs);
  }

  lemma StartZero(docs: Docs)
    ensures Start(docs, 0) == 0
  {
    assert docs[..0] == [];
  }

  /** Inside one of all sections is inside one of the document's own. */
  lemma InsideOwn(parts: seq<seq<Section>>, docs: Docs, d: nat, r: nat, n: nat)
    requires PartsOk(parts, docs) && |parts| == |docs| && d < |docs| && n >= 1 && r + n <= |docs[d]|
    ensures Inside(JoinAll(parts), Start(docs, d) + r, Start(docs, d) + r + n) <==>
            Inside(parts[d], Start(docs, d) + r, Start(docs, d) + r + n)
  {
    hide Start, JoinAll;
    var secs := JoinAll(parts);
    var a, b := Start(docs, d) + r, Start(docs, d) + r + n;
    StartStep(docs, d);
    if i :| 0 <= i < |secs| && secs[i].start <= a && b <= secs[i].end {
      ConcatMember(parts, secs[i]);
      assert secs[i] in secs;
      var e :| 0 <= e < |parts| && secs[i] in parts[e];
      assert SectionIn(secs[i], docs, e);
      if e < d { StartMonotone(docs, e + 1, d); }
      if e > d { StartMonotone(docs, d + 1, e); }
      assert e == d;
      var j :| 0 <= j < |parts[d]| && parts[d][j] == secs[i];
    }
    if j :| 0 <= j < |parts[d]| && parts[d][j].start <= a && b <= parts[d][j].end {
      ConcatMember(parts, parts[d][j]);
      assert parts[d][j] in parts[d];
      var i :| 0 <= i < |secs| && secs[i] == parts[d][j];
    }
  }

  /** The runes from `r` on lie in a rune section of the document exactly when their bytes lie in a symbol. */
  lemma InsideIffInSymbol(part: seq<Section>, src: Source, d: nat, r: nat, n: nat)
    requires d < |src.contents| && d < |src.symbols| && DocSectionsConverted(part, src, d)
    requires r + n <= |Tokens(src.contents[d])|
    ensures var base := Start(Tokenize(src.contents), d);
            Inside(part, base + r, base + r + n) <==> InSymbol(src, d, r, n)
  {
    hide Tokens, Flat, Offset, DocSectionsConverted, Start;
    PartFacts(part, src, d);
    var text, base := src.contents[d], Start(Tokenize(src.contents), d);
    StartStep(Tokenize(src.contents), d);
    forall i | 0 <= i < |part|
      ensures part[i].start <= base + r <==> src.symbols[d][i].start <= Offset(text, r)
      ensures base + r + n <= part[i].end <==> Offset(text, r + n) <= src.symbols[d][i].end
    {
      assert SectionIn(part[i], Tokenize(src.contents), d);
      OffsetInjective(text, part[i].start - base, r);
      OffsetInjective(text, r + n, part[i].end - base);
    }
  }
}
