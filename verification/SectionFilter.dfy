/** Symbol search: candidates cut down to those inside a section (trimBySectionMatchIter, matchiter.go). */
module SectionFilter {
  import opened Machine
  import opened DeltaCodec
  import opened DocIterators

  /** Positions [a, b) lie wholly inside one of the sections. */
  ghost predicate Inside(secs: seq<Section>, a: int, b: int) {
    exists i :: 0 <= i < |secs| && secs[i].start <= a && b <= secs[i].end
  }

  /** Sections in corpus order, none overlapping, none reaching over the start of a document. */
  ghost predicate SectionsOk(secs: seq<Section>, ends: seq<u32>) {
    && (forall i :: 0 <= i < |secs| ==> secs[i].start <= secs[i].end)
    && (forall i, j :: 0 <= i < j < |secs| ==> secs[i].end <= secs[j].start)
    && (forall i, d :: 0 <= i < |secs| && 0 <= d <= |ends| && secs[i].start < StartOf(ends, d) ==>
          secs[i].end <= StartOf(ends, d))
  }

  /** All sections before the k-th end at or before position `bound`. */
  ghost predicate Passed(secs: seq<Section>, k: nat, bound: int) {
    k <= |secs| && forall i :: 0 <= i < k ==> secs[i].end <= bound
  }

  /** Exactly the candidates of `ms` whose pattern lies inside a section. */
  ghost predicate Trimmed(out: seq<int>, ms: seq<int>, secs: seq<Section>, start: int, size: int) {
    && Increasing(out)
    && forall r :: r in out <==> r in ms && Inside(secs, start + r, start + r + size)
  }

  /** A candidate before the next section is in none. */
  lemma BeforeNext(secs: seq<Section>, k: nat, a: int, b: int, ends: seq<u32>)
    requires SectionsOk(secs, ends) && Passed(secs, k, a) && a < b
    requires k < |secs| ==> a < secs[k].start
    ensures !Inside(secs, a, b)
  {
    forall i | 0 <= i < |secs| ensures !(secs[i].start <= a && b <= secs[i].end) {
      assert i > k ==> secs[k].start <= secs[k].end <= secs[i].start;
    }
  }

  /** A candidate starting in the next section is inside one exactly when it is inside that one. */
  lemma InNext(secs: seq<Section>, k: nat, a: int, b: int, ends: seq<u32>)
    requires SectionsOk(secs, ends) && Passed(secs, k, a) && a < b
    requires k < |secs| && secs[k].start <= a < secs[k].end
    ensures Inside(secs, a, b) <==> b <= secs[k].end
  {
    forall i | 0 <= i < |secs| && i != k ensures !(secs[i].start <= a && b <= secs[i].end) {
      assert i > k ==> secs[k].end <= secs[i].start;
    }
  }

  lemma TrimmedSkip(out: seq<int>, ms: seq<int>, i: nat, secs: seq<Section>, start: int, size: int)
    requires i < |ms| && Trimmed(out, ms[..i], secs, start, size)
    requires !Inside(secs, start + ms[i], start + ms[i] + size)
    ensures Trimmed(out, ms[..i + 1], secs, start, size)
  {
    assert ms[..i + 1] == ms[..i] + [ms[i]];
  }

  lemma TrimmedTake(out: seq<int>, ms: seq<int>, i: nat, secs: seq<Section>, start: int, size: int)
    requires i < |ms| && Increasing(ms) && Trimmed(out, ms[..i], secs, start, size)
    requires Inside(secs, start + ms[i], start + ms[i] + size)
    ensures Trimmed(out + [ms[i]], ms[..i + 1], secs, start, size)
  {
    assert ms[..i + 1] == ms[..i] + [ms[i]];
    assert forall j :: 0 <= j < |out| ==> out[j] in out && out[j] in ms[..i];
    assert forall r :: r in ms[..i] ==> r < ms[i];
  }

  /** When the sections run out, no later candidate is inside one. */
  lemma TrimmedRest(out: seq<int>, ms: seq<int>, i: nat, secs: seq<Section>, start: int, size: int, ends: seq<u32>)
    requires i <= |ms| && Increasing(ms) && Trimmed(out, ms[..i], secs, start, size)
    requires SectionsOk(secs, ends) && size >= 1
    requires i < |ms| ==> Passed(secs, |secs|, start + ms[i])
    ensures Trimmed(out, ms, secs, start, size)
  {
    hide Inside, SectionsOk;
    forall j | i <= j < |ms| ensures !Inside(secs, start + ms[j], start + ms[j] + size) {
      BeforeNext(secs, |secs|, start + ms[j], start + ms[j] + size, ends);
    }
    forall r ensures r in ms && Inside(secs, start + r, start + r + size) ==> r in ms[..i] {
    }
    assert forall r :: r in ms[..i] ==> r in ms;
  }

  lemma PassOne(secs: seq<Section>, k: nat, ms: seq<u32>, i: nat, start: int)
    requires k < |secs| && i < |ms| && Increasing(ms)
    requires Passed(secs, k, start + ms[i]) && secs[k].end <= start + ms[i]
    ensures Passed(secs, k + 1, start + ms[i]) && Passed(secs, k + 1, start + ms[|ms| - 1])
  {
    assert ms[i] <= ms[|ms| - 1];
  }

  /** The loop of trimBySectionMatchIter.candidates. */
  method Trim(ms: seq<u32>, sections: seq<Section>, start: u32, size: u32,
              ghost secs: seq<Section>, ghost k0: nat, ghost ends: seq<u32>)
    returns (out: seq<u32>, sections': seq<Section>, ghost k: nat)
    requires SectionsOk(secs, ends) && Increasing(ms) && size >= 1
    requires forall i :: 0 <= i < |ms| ==> start + ms[i] + size <= MaxU32
    requires k0 <= |secs| && Passed(secs, k0, start) && sections == secs[k0..]
    ensures k0 <= k && k <= |secs| && sections' == secs[k..]
    ensures k == k0 || (ms != [] && Passed(secs, k, start + ms[|ms| - 1]))
    ensures Trimmed(out, ms, secs, start, size)
  {
    hide Trimmed, Inside, SectionsOk, Passed;
    out, sections', k := [], sections, k0;
    var i := 0;
    StartTrim(ms, secs, start, size, k0);
    while |sections'| > 0 && i < |ms|
      invariant 0 <= i <= |ms| && k0 <= k <= |secs| && sections' == secs[k..]
      invariant i < |ms| ==> Passed(secs, k, start + ms[i])
      invariant k == k0 || (ms != [] && Passed(secs, k, start + ms[|ms| - 1]))
      invariant Trimmed(out, ms[..i], secs, start, size)
      decreases |sections'| + |ms| - i
    {
      var a: u32 := start + ms[i];
      var b: u32 := a + size;
      if a >= sections'[0].end {
        PassOne(secs, k, ms, i, start);
        sections' := sections'[1..];
        k := k + 1;
        continue;
      }
      PassedLater(secs, k, ms, i, start);
      if a < sections'[0].start {
        BeforeNext(secs, k, a, b, ends);
        TrimmedSkip(out, ms, i, secs, start, size);
        i := i + 1;
        continue;
      }
      InNext(secs, k, a, b, ends);
      if b <= sections'[0].end {
        TrimmedTake(out, ms, i, secs, start, size);
        out := out + [ms[i]];
      } else {
        TrimmedSkip(out, ms, i, secs, start, size);
      }
      i := i + 1;
    }
    TrimmedRest(out, ms, i, secs, start, size, ends);
  }

  lemma StartTrim(ms: seq<u32>, secs: seq<Section>, start: int, size: int, k: nat)
    requires Passed(secs, k, start)
    ensures Trimmed([], ms[..0], secs, start, size)
    ensures |ms| > 0 ==> Passed(secs, k, start + ms[0])
  {
  }

  lemma PassedLater(secs: seq<Section>, k: nat, ms: seq<u32>, i: nat, start: int)
    requires i < |ms| && Increasing(ms) && Passed(secs, k, start + ms[i])
    ensures i + 1 < |ms| ==> Passed(secs, k, start + ms[i + 1])
  {
  }

  lemma DropBefore(secs: seq<Section>, k: nat, ends: seq<u32>, d: nat)
    requires SectionsOk(secs, ends) && d <= |ends| && Passed(secs, k, StartOf(ends, d))
    requires k < |secs| && secs[k].start < StartOf(ends, d)
    ensures Passed(secs, k + 1, StartOf(ends, d))
  {
  }

  /** Offers inside a section, for candidates known to fit their document. */
  ghost function InsideOnly(offers: set<int>, secs: seq<Section>, start: int, size: int): set<int> {
    set r | r in offers && Inside(secs, start + r, start + r + size)
  }

  class TrimBySectionIterator {
    const inner: PlainIterator
    const patternSize: u32
    const ends: seq<u32>
    var doc: u32
    var sections: seq<Section>

    /** All sections of the corpus, and how many have been discarded. */
    ghost const secs: seq<Section>
    ghost var dropped: nat

    ghost function Objects(): set<object> {
      {this} + inner.Objects()
    }

    ghost predicate Shape()
      reads this
    {
      && this !in inner.Objects()
      && inner.Counts(ends) && Nondecreasing(ends)
      && SectionsOk(secs, ends) && patternSize >= 1
      && (forall d, r :: 0 <= d < |ends| && r in inner.Offers(d) ==>
            0 <= r && StartOf(ends, d) + r + patternSize <= ends[d])
      && dropped <= |secs| && sections == secs[dropped..]
    }

    ghost predicate Ready(cursor: int)
      reads Objects()
    {
      && Shape() && inner.Ready(cursor) && -1 <= cursor < |ends|
      && Passed(secs, dropped, StartOf(ends, cursor + 1))
    }

    ghost predicate Prepared(doc: int)
      reads Objects()
    {
      && Shape() && inner.Prepared(doc) && 0 <= doc < |ends| && this.doc == doc
      && Passed(secs, dropped, StartOf(ends, doc))
    }

    ghost function Offers(d: nat): set<int> {
      if d < |ends| then InsideOnly(inner.Offers(d), secs, StartOf(ends, d), patternSize) else {}
    }

    /** newTrimByDocSectionIter. */
    constructor (inner: PlainIterator, patternSize: u32, ends: seq<u32>, sections: seq<Section>)
      requires inner.Ready(-1) && inner.Counts(ends) && Nondecreasing(ends)
      requires SectionsOk(sections, ends) && patternSize >= 1
      requires forall d, r :: 0 <= d < |ends| && r in inner.Offers(d) ==>
                 0 <= r && StartOf(ends, d) + r + patternSize <= ends[d]
      ensures Ready(-1)
      ensures this.inner == inner && this.patternSize == patternSize && this.ends == ends && secs == sections
    {
      this.inner, this.patternSize, this.ends, this.sections := inner, patternSize, ends, sections;
      doc := 0;
      secs, dropped := sections, 0;
    }

    method NextDoc(ghost cursor: int) returns (doc: u32)
      requires Ready(cursor) && cursor < |ends|
      modifies Objects()
      ensures Ready(cursor)
      ensures forall d :: cursor < d < doc && 0 <= d < |ends| ==> Offers(d) == {}
      ensures cursor < doc && (doc < MaxU32 ==> inner.Lands(doc))
    {
      hide PlainIterator.Ready, PlainIterator.Lands, SectionsOk, Passed;
      doc := inner.NextDoc(cursor, ends);
    }

    method Prepare(doc: u32, ghost cursor: int)
      requires Ready(cursor) && cursor < doc < |ends|
      modifies Objects()
      ensures Prepared(doc)
    {
      hide PlainIterator.Ready, PlainIterator.Prepared, SectionsOk, PlainIterator.Offers;
      inner.Prepare(doc, cursor, ends);
      this.doc := doc;
      var fileStart: u32 := StartOf(ends, doc);
      PassedFurther(secs, dropped, ends, cursor + 1, doc);
      while |sections| > 0 && sections[0].start < fileStart
        invariant Shape() && inner.Prepared(doc) && this.doc == doc
        invariant Passed(secs, dropped, fileStart)
        decreases |sections|
      {
        DropBefore(secs, dropped, ends, doc);
        sections := sections[1..];
        dropped := dropped + 1;
      }
    }

    /** candidates: those of the inner iterator that lie wholly inside one section. */
    method Candidates() returns (cands: seq<u32>)
      requires Prepared(doc)
      modifies Objects()
      ensures doc == old(doc) && Ready(doc)
      ensures Increasing(cands) && Elements(cands) == Offers(doc)
    {
      hide PlainIterator.Ready, PlainIterator.Prepared, SectionsOk, PlainIterator.Offers, Passed;
      var ms := inner.Candidates(doc, ends);
      cands := Restrict(ms);
    }

    method Restrict(ms: seq<u32>) returns (cands: seq<u32>)
      requires Shape() && 0 <= doc < |ends| && inner.Ready(doc)
      requires Passed(secs, dropped, StartOf(ends, doc))
      requires Increasing(ms) && Elements(ms) == inner.Offers(doc)
      modifies this`sections, this`dropped
      ensures Ready(doc)
      ensures Increasing(cands) && Elements(cands) == Offers(doc)
    {
      hide PlainIterator.Ready, SectionsOk, PlainIterator.Offers, Passed, Inside, Trimmed, Increasing, Elements, InsideOnly;
      var fileStart: u32 := StartOf(ends, doc);
      OffersFit(ms, inner.Offers(doc), fileStart, ends[doc], patternSize);
      ghost var k;
      cands, sections, k := Trim(ms, sections, fileStart, patternSize, secs, dropped, ends);
      TrimmedOffers(cands, ms, inner.Offers(doc), secs, fileStart, patternSize);
      if ms != [] { PassedMore(secs, k, fileStart + ms[|ms| - 1], ends[doc]); }
      PassedFurther(secs, dropped, ends, doc, doc + 1);
      dropped := k;
    }
  }

  lemma TrimmedOffers(out: seq<int>, ms: seq<int>, offers: set<int>, secs: seq<Section>, start: int, size: int)
    requires Trimmed(out, ms, secs, start, size) && Elements(ms) == offers
    ensures Increasing(out) && Elements(out) == InsideOnly(offers, secs, start, size)
  {
    forall r ensures r in Elements(out) <==> r in InsideOnly(offers, secs, start, size) {
      assert r in ms <==> r in Elements(ms);
    }
  }

  lemma OffersFit(ms: seq<int>, offers: set<int>, start: int, end: int, size: int)
    requires Elements(ms) == offers && forall r :: r in offers ==> 0 <= r && start + r + size <= end
    ensures forall i :: 0 <= i < |ms| ==> start + ms[i] + size <= end
  {
    assert forall i :: 0 <= i < |ms| ==> ms[i] in Elements(ms);
  }

  lemma PassedMore(secs: seq<Section>, k: nat, a: int, b: int)
    requires a <= b
    ensures Passed(secs, k, a) ==> Passed(secs, k, b)
  {
  }

  lemma PassedFurther(secs: seq<Section>, k: nat, ends: seq<u32>, a: nat, b: nat)
    requires Nondecreasing(ends) && a <= b <= |ends| && Passed(secs, k, StartOf(ends, a))
    ensures Passed(secs, k, StartOf(ends, b))
  {
    if a < b { StartsIncrease(ends, a, b); }
  }

  /** The match iterator of a substring node: plain, or restricted to symbol sections. */
  datatype MatchIterator = Plain(plain: PlainIterator) | InSections(trim: TrimBySectionIterator) {

    ghost function Objects(): set<object> {
      match this case Plain(p) => p.Objects() case InSections(t) => t.Objects()
    }

    ghost predicate Ready(cursor: int)
      reads Objects()
    {
      match this case Plain(p) => p.Ready(cursor) case InSections(t) => t.Ready(cursor)
    }

    ghost predicate Prepared(doc: int)
      reads Objects()
    {
      match this case Plain(p) => p.Prepared(doc) case InSections(t) => t.Prepared(doc)
    }

    ghost function Offers(d: nat): set<int> {
      match this case Plain(p) => p.Offers(d) case InSections(t) => t.Offers(d)
    }

    ghost predicate Counts(ends: seq<u32>) {
      match this case Plain(p) => p.Counts(ends) case InSections(t) => t.ends == ends && |ends| <= MaxU32
    }

    /** Document `d` holds a hit of the trigrams that are looked up. */
    ghost predicate Lands(d: nat) {
      match this case Plain(p) => p.Lands(d) case InSections(t) => t.inner.Lands(d)
    }

    method NextDoc(ghost cursor: int, ghost ends: seq<u32>) returns (doc: u32)
      requires Ready(cursor) && Counts(ends) && cursor < |ends|
      modifies Objects()
      ensures Ready(cursor)
      ensures forall d :: cursor < d < doc && 0 <= d < |ends| ==> Offers(d) == {}
      ensures cursor < doc && (doc < MaxU32 ==> Lands(doc))
    {
      hide PlainIterator.Ready, PlainIterator.Lands, TrimBySectionIterator.Ready, PlainIterator.Offers, TrimBySectionIterator.Offers;
      match this
      case Plain(p) => doc := p.NextDoc(cursor, ends);
      case InSections(t) => doc := t.NextDoc(cursor);
    }

    /** What substrMatchTree.prepare does: move to the document and collect its candidates. */
    method Prepare(doc: u32, ghost cursor: int, ghost ends: seq<u32>) returns (cands: seq<u32>)
      requires Ready(cursor) && Counts(ends) && cursor < doc < |ends|
      modifies Objects()
      ensures Ready(doc)
      ensures Increasing(cands) && Elements(cands) == Offers(doc)
    {
      hide PlainIterator.Ready, TrimBySectionIterator.Ready, PlainIterator.Prepared,
        PlainIterator.Offers, TrimBySectionIterator.Offers;
      match this
      case Plain(p) =>
        p.Prepare(doc, cursor, ends);
        cands := p.Candidates(doc, ends);
      case InSections(t) =>
        t.Prepare(doc, cursor);
        cands := t.Candidates();
    }
  }
}
