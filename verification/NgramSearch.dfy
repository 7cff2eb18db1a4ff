/** Building the match iterator of a substring from its two rarest trigrams (iterateNgrams, indexdata.go). */
module NgramSearch {
  import opened Machine
  import opened Utf8
  import opened Ngrams
  import opened Corpus
  import opened CaseFolding
  import opened HitIterators
  import opened DocIterators
  import opened TrigramLookup

  /** How runes are compared: exactly, or up to case. */
  datatype Matching = Matching(caseSensitive: bool, fold: Rune -> Rune) {

    ghost predicate Same(a: Rune, b: Rune) {
      if caseSensitive then a == b else SameFold(fold, a, b)
    }

    ghost predicate Ok() {
      caseSensitive || Cycles(fold)
    }
  }

  /** The tokens `ts` hold the pattern at token `r`, rune by rune. */
  ghost predicate RunesAt(m: Matching, pat: seq<Token>, ts: seq<Token>, r: int) {
    && 0 <= r && r + |pat| <= |ts|
    && forall i :: 0 <= i < |pat| ==> m.Same(pat[i].rune, ts[r + i].rune)
  }

  /** The i-th trigram of the pattern stands at token `q`. */
  ghost predicate TrigramAt(m: Matching, pat: seq<Token>, i: nat, ts: seq<Token>, q: int) {
    && i + 3 <= |pat| && 0 <= q && q + 3 <= |ts|
    && m.Same(pat[i].rune, ts[q].rune) && m.Same(pat[i + 1].rune, ts[q + 1].rune) && m.Same(pat[i + 2].rune, ts[q + 2].rune)
  }

  /** `v` counts as the i-th trigram of the pattern. */
  ghost predicate IsTrigram(m: Matching, pat: seq<Token>, i: nat, v: Ngram)
    requires i + 3 <= |pat|
  {
    exists a: Rune, b: Rune, c: Rune ::
      m.Same(pat[i].rune, a) && m.Same(pat[i + 1].rune, b) && m.Same(pat[i + 2].rune, c) && v == Pack(a, b, c)
  }

  lemma TrigramIff(m: Matching, pat: seq<Token>, i: nat, ts: seq<Token>, q: nat)
    requires i + 3 <= |pat| && q + 3 <= |ts|
    ensures IsTrigram(m, pat, i, Trigram(ts, q)) <==> TrigramAt(m, pat, i, ts, q)
  {
    hide Pack, Matching.Same;
    UnpackPack(ts[q].rune, ts[q + 1].rune, ts[q + 2].rune);
    if IsTrigram(m, pat, i, Trigram(ts, q)) {
      var a: Rune, b: Rune, c: Rune :|
        m.Same(pat[i].rune, a) && m.Same(pat[i + 1].rune, b) && m.Same(pat[i + 2].rune, c) && Trigram(ts, q) == Pack(a, b, c);
      UnpackPack(a, b, c);
    }
  }

  /** The trigrams that count as the i-th one. */
  ghost function VariantSet(m: Matching, pat: seq<Token>, i: nat): set<Ngram>
    requires i + 3 <= |pat|
  {
    set v: Ngram | 0 <= v < 0x8000_0000_0000_0000 && IsTrigram(m, pat, i, v)
  }

  /** `vs` lists them, without repetition. */
  ghost predicate AreVariants(m: Matching, pat: seq<Token>, i: nat, vs: seq<Ngram>)
    requires i + 3 <= |pat|
  {
    (forall v: Ngram :: v in vs <==> IsTrigram(m, pat, i, v)) && NoDuplicates(vs)
  }

  ghost predicate NoDuplicates(vs: seq<Ngram>) {
    forall i, j :: 0 <= i < j < |vs| ==> vs[i] != vs[j]
  }

  /** generateCaseNgrams where case does not matter, the trigram alone where it does. */
  method Variants(m: Matching, ng: Ngram, ghost pat: seq<Token>, ghost i: nat) returns (vs: seq<Ngram>)
    requires m.Ok() && i + 3 <= |pat| && ng == Trigram(pat, i)
    ensures AreVariants(m, pat, i, vs)
  {
    hide Pack;
    UnpackPack(pat[i].rune, pat[i + 1].rune, pat[i + 2].rune);
    if m.caseSensitive {
      return [ng];
    }
    var u := Unpack(ng);
    var x: (Rune, Rune, Rune) := (u.0, u.1, u.2);
    vs := GenerateCaseNgrams(m.fold, x);
    forall v: Ngram ensures IsVariant(m.fold, x, v) <==> IsTrigram(m, pat, i, v) {
      VariantIsTrigram(m, pat, i, x, v);
    }
  }

  lemma VariantIsTrigram(m: Matching, pat: seq<Token>, i: nat, x: (Rune, Rune, Rune), v: Ngram)
    requires i + 3 <= |pat| && !m.caseSensitive && x == (pat[i].rune, pat[i + 1].rune, pat[i + 2].rune)
    ensures IsVariant(m.fold, x, v) <==> IsTrigram(m, pat, i, v)
  {
    hide Pack, SameFold;
    if IsVariant(m.fold, x, v) {
      var a: Rune, b: Rune, c: Rune :|
        SameFold(m.fold, x.0, a) && SameFold(m.fold, x.1, b) && SameFold(m.fold, x.2, c) && v == Pack(a, b, c);
      assert m.Same(pat[i].rune, a) && m.Same(pat[i + 1].rune, b) && m.Same(pat[i + 2].rune, c);
    }
    if IsTrigram(m, pat, i, v) {
      var a: Rune, b: Rune, c: Rune :|
        m.Same(pat[i].rune, a) && m.Same(pat[i + 1].rune, b) && m.Same(pat[i + 2].rune, c) && v == Pack(a, b, c);
      assert SameFold(m.fold, x.0, a) && SameFold(m.fold, x.1, b) && SameFold(m.fold, x.2, c);
    }
  }

  // ----- frequencies -----

  /** The frequencies of some trigrams together. */
  ghost function Total(t: PostingTable, vs: set<Ngram>): nat {
    if vs == {} then 0 else var v :| v in vs; t.Frequency(v) + Total(t, vs - {v})
  }

  lemma {:induction false} TotalRemove(t: PostingTable, vs: set<Ngram>, x: Ngram)
    requires x in vs
    ensures Total(t, vs) == t.Frequency(x) + Total(t, vs - {x})
    decreases |vs|
  {
    var v: Ngram :| v in vs && Total(t, vs) == t.Frequency(v) + Total(t, vs - {v});
    if v != x {
      TotalRemove(t, vs - {v}, x);
      TotalRemove(t, vs - {x}, v);
      assert vs - {v} - {x} == vs - {x} - {v};
    }
  }

  /** How often a trigram occurs that counts as the i-th one of the pattern, for each i. */
  ghost function FrequenciesOf(t: PostingTable, m: Matching, pat: seq<Token>): (fs: seq<nat>)
    requires |pat| >= 3
    ensures |fs| == |pat| - 2
  {
    seq(|pat| - 2, i requires 0 <= i < |pat| - 2 => Total(t, VariantSet(m, pat, i)))
  }

  function SumFrequency(t: PostingTable, vs: seq<Ngram>): nat {
    if vs == [] then 0 else SumFrequency(t, vs[..|vs| - 1]) + t.Frequency(vs[|vs| - 1])
  }

  /** Posting lists are disjoint parts of a file smaller than 2^32 - 1 bytes. */
  ghost predicate FrequenciesFit(t: PostingTable) {
    forall vs: seq<Ngram> :: NoDuplicates(vs) ==> SumFrequency(t, vs) < MaxU32
  }

  /** A list without repetition adds up to the total of its elements. */
  lemma {:induction false} SumIsTotal(t: PostingTable, vs: seq<Ngram>, all: set<Ngram>)
    requires NoDuplicates(vs) && forall v: Ngram :: v in all <==> v in vs
    ensures SumFrequency(t, vs) == Total(t, all)
  {
    hide PostingTable.Frequency;
    if vs == [] {
      assert all == {};
    } else {
      var n := |vs| - 1;
      assert vs == vs[..n] + [vs[n]];
      TotalRemove(t, all, vs[n]);
      SumIsTotal(t, vs[..n], all - {vs[n]});
    }
  }

  /** The frequency of a trigram with all its variants (indexdata.go:203-210), without wrapping around. */
  method CountVariants(t: PostingTable, vs: seq<Ngram>) returns (freq: u32)
    requires FrequenciesFit(t) && NoDuplicates(vs)
    ensures freq == SumFrequency(t, vs) < MaxU32
  {
    freq := 0;
    for k := 0 to |vs|
      invariant freq == SumFrequency(t, vs[..k])
    {
      assert vs[..k + 1][..k] == vs[..k];
      assert NoDuplicates(vs[..k + 1]);
      freq := freq + t.Frequency(vs[k]);
    }
    assert vs[..|vs|] == vs;
  }

  // ----- hits -----

  /** The hits inside documents are the places where the i-th trigram of the pattern stands. */
  ghost predicate Marks(hits: set<int>, i: nat, m: Matching, pat: seq<Token>, docs: Docs) {
    forall d, q :: 0 <= d < |docs| && 0 <= q && q + 3 <= |docs[d]| ==>
      (Start(docs, d) + q in hits <==> TrigramAt(m, pat, i, docs[d], q))
  }

  lemma SameDocument(docs: Docs, d: nat, d': nat, p: int)
    requires d < |docs| && d' < |docs|
    requires Start(docs, d) <= p < End(docs, d) && Start(docs, d') <= p < End(docs, d')
    ensures d == d'
  {
    if d < d' { StartMonotone(docs, d, d'); }
    if d' < d { StartMonotone(docs, d', d); }
  }

  lemma HitIffTrigramAt(m: Matching, pat: seq<Token>, docs: Docs, d: nat, q: nat, i: nat, vs: seq<Ngram>)
    requires d < |docs| && q + 3 <= |docs[d]| && i + 3 <= |pat| && AreVariants(m, pat, i, vs)
    ensures Start(docs, d) + q in HitsOfAny(docs, vs) <==> TrigramAt(m, pat, i, docs[d], q)
  {
    hide CorpusHits, Start, Pack, IsTrigram, TrigramAt;
    var p, ng := Start(docs, d) + q, Trigram(docs[d], q);
    TrigramIff(m, pat, i, docs[d], q);
    if TrigramAt(m, pat, i, docs[d], q) {
      assert ng in vs && HitIn(docs, d, p, ng);
      CorpusHitsExact(docs, ng);
      var k :| 0 <= k < |vs| && vs[k] == ng;
      assert p in CorpusHits(docs, vs[k]);
    }
    if p in HitsOfAny(docs, vs) {
      var k :| 0 <= k < |vs| && p in CorpusHits(docs, vs[k]);
      CorpusHitsExact(docs, vs[k]);
      var d' :| HitIn(docs, d', p, vs[k]);
      StartStep(docs, d);
      StartStep(docs, d');
      SameDocument(docs, d, d', p);
      assert vs[k] == ng;
    }
  }

  lemma HitsMark(m: Matching, pat: seq<Token>, docs: Docs, i: nat, vs: seq<Ngram>)
    requires i + 3 <= |pat| && AreVariants(m, pat, i, vs)
    ensures Marks(HitsOfAny(docs, vs), i, m, pat, docs)
  {
    hide TrigramAt, AreVariants, HitsOfAny, Start;
    forall d, q | 0 <= d < |docs| && 0 <= q && q + 3 <= |docs[d]|
      ensures Start(docs, d) + q in HitsOfAny(docs, vs) <==> TrigramAt(m, pat, i, docs[d], q)
    {
      HitIffTrigramAt(m, pat, docs, d, q, i, vs);
    }
  }

  // ----- what is offered -----

  /** The two rarest trigrams of the pattern stand in their places if the pattern starts at token `r`. */
  ghost predicate BothAt(m: Matching, pat: seq<Token>, first: nat, last: nat, ts: seq<Token>, r: int) {
    TrigramAt(m, pat, first, ts, r + first) && TrigramAt(m, pat, last, ts, r + last)
  }

  /**
   * What the index offers as a place of the pattern: every trigram of the pattern occurs in the corpus, and the two
   * rarest ones stand here. The document itself decides only the second.
   */
  ghost predicate Offered(t: PostingTable, m: Matching, pat: seq<Token>, ts: seq<Token>, r: int)
    requires |pat| >= 3
  {
    && 0 <= r && r + |pat| <= |ts|
    && (forall i :: 0 <= i < |pat| - 2 ==> FrequenciesOf(t, m, pat)[i] > 0)
    && exists first, last :: AreRarest(FrequenciesOf(t, m, pat), first, last) && BothAt(m, pat, first, last, ts, r)
  }

  lemma OccursIsFrequent(t: PostingTable, m: Matching, pat: seq<Token>, docs: Docs, d: nat, i: nat, q: int)
    requires t.Holds(docs) && d < |docs| && i + 3 <= |pat| && TrigramAt(m, pat, i, docs[d], q)
    ensures Total(t, VariantSet(m, pat, i)) > 0
  {
    hide CorpusHits, Start, Pack, IsTrigram, PostingTable.Holds, PostingTable.Frequency;
    var ng := Trigram(docs[d], q);
    TrigramIff(m, pat, i, docs[d], q);
    CorpusHitsExact(docs, ng);
    assert HitIn(docs, d, Start(docs, d) + q, ng);
    assert Start(docs, d) + q in CorpusHits(docs, ng);
    FrequencyZero(t, docs, ng);
    assert ng in VariantSet(m, pat, i);
    TotalRemove(t, VariantSet(m, pat, i), ng);
  }

  lemma {:induction false} FirstMinExists(xs: seq<int>) returns (j: nat)
    requires xs != []
    ensures IsFirstMin(xs, j)
  {
    var n := |xs| - 1;
    if n == 0 {
      j := 0;
    } else {
      j := FirstMinExists(xs[..n]);
      if xs[n] < xs[j] {
        j := n;
      }
    }
  }

  lemma {:induction false} LastMinExists(xs: seq<int>) returns (j: nat)
    requires xs != []
    ensures IsLastMin(xs, j)
  {
    var n := |xs| - 1;
    if n == 0 {
      j := 0;
    } else {
      j := LastMinExists(xs[..n]);
      if xs[n] <= xs[j] {
        j := n;
      }
    }
  }

  lemma RarestExist(fs: seq<int>) returns (first: nat, last: nat)
    requires fs != []
    ensures AreRarest(fs, first, last) && first <= last < |fs|
  {
    first := FirstMinExists(fs);
    last := LastMinExists(fs[first := MaxU32]);
    assert Rarest(fs, first, last);
    if last < first {
      first, last := last, first;
    }
  }

  lemma RunesAreTrigrams(m: Matching, pat: seq<Token>, ts: seq<Token>, r: int, i: nat)
    requires RunesAt(m, pat, ts, r) && i + 3 <= |pat|
    ensures TrigramAt(m, pat, i, ts, r + i)
  {
    hide Matching.Same;
    assert m.Same(pat[i].rune, ts[r + i].rune);
    assert m.Same(pat[i + 1].rune, ts[r + (i + 1)].rune) && m.Same(pat[i + 2].rune, ts[r + (i + 2)].rune);
  }

  /** Every place where the pattern stands rune by rune is offered. */
  lemma PatternOffered(t: PostingTable, m: Matching, pat: seq<Token>, docs: Docs, d: nat, r: int)
    requires t.Holds(docs) && d < |docs| && |pat| >= 3 && RunesAt(m, pat, docs[d], r)
    ensures Offered(t, m, pat, docs[d], r)
  {
    hide TrigramAt, PostingTable.Holds, VariantSet, Total, AreRarest;
    forall i | 0 <= i < |pat| - 2 ensures FrequenciesOf(t, m, pat)[i] > 0 {
      RunesAreTrigrams(m, pat, docs[d], r, i);
      OccursIsFrequent(t, m, pat, docs, d, i, r + i);
    }
    var first, last := RarestExist(FrequenciesOf(t, m, pat));
    RunesAreTrigrams(m, pat, docs[d], r, first);
    RunesAreTrigrams(m, pat, docs[d], r, last);
    assert BothAt(m, pat, first, last, docs[d], r);
  }

  /** A trigram that never occurs rules the pattern out everywhere. */
  lemma NoHitsNoPattern(m: Matching, pat: seq<Token>, docs: Docs, i: nat, t: PostingTable)
    requires i + 3 <= |pat| && t.Holds(docs) && Total(t, VariantSet(m, pat, i)) == 0
    ensures forall d, r :: 0 <= d < |docs| ==> !RunesAt(m, pat, docs[d], r)
  {
    hide RunesAt, VariantSet, Total, PostingTable.Holds;
    forall d, r | 0 <= d < |docs| ensures !RunesAt(m, pat, docs[d], r) {
      if RunesAt(m, pat, docs[d], r) {
        RunesAreTrigrams(m, pat, docs[d], r, i);
        OccursIsFrequent(t, m, pat, docs, d, i, r + i);
        assert false;
      }
    }
  }

  /** The iterator offers exactly these places. */
  ghost predicate OffersExactly(it: PlainIterator, t: PostingTable, m: Matching, pat: seq<Token>, docs: Docs)
    requires |pat| >= 3
  {
    forall d, r :: 0 <= d < |docs| ==> (r in it.Offers(d) <==> Offered(t, m, pat, docs[d], r))
  }

  /** Positions of one or two trigrams of the pattern, the first at `first`. */
  ghost predicate MarksBoth(hits: set<int>, first: nat, last: nat, m: Matching, pat: seq<Token>, docs: Docs) {
    forall d, r :: 0 <= d < |docs| && 0 <= r && r + |pat| <= |docs[d]| ==>
      (Start(docs, d) + r + first in hits <==> BothAt(m, pat, first, last, docs[d], r))
  }

  lemma OneMarks(h: set<int>, i: nat, m: Matching, pat: seq<Token>, docs: Docs)
    requires Marks(h, i, m, pat, docs) && i + 3 <= |pat|
    ensures MarksBoth(h, i, i, m, pat, docs)
  {
    hide TrigramAt, Start;
    forall d, r | 0 <= d < |docs| && 0 <= r && r + |pat| <= |docs[d]|
      ensures Start(docs, d) + r + i in h <==> BothAt(m, pat, i, i, docs[d], r)
    {
      assert Start(docs, d) + (r + i) in h <==> TrigramAt(m, pat, i, docs[d], r + i);
    }
  }

  lemma TwoMark(h1: set<int>, h2: set<int>, first: nat, last: nat, m: Matching, pat: seq<Token>, docs: Docs)
    requires first < last && last + 3 <= |pat|
    requires Marks(h1, first, m, pat, docs) && Marks(h2, last, m, pat, docs)
    ensures MarksBoth(AtDistance(h1, h2, last - first), first, last, m, pat, docs)
  {
    hide TrigramAt, Start;
    forall d, r | 0 <= d < |docs| && 0 <= r && r + |pat| <= |docs[d]|
      ensures Start(docs, d) + r + first in AtDistance(h1, h2, last - first) <==> BothAt(m, pat, first, last, docs[d], r)
    {
      assert Start(docs, d) + (r + first) in h1 <==> TrigramAt(m, pat, first, docs[d], r + first);
      assert Start(docs, d) + (r + last) in h2 <==> TrigramAt(m, pat, last, docs[d], r + last);
      assert Start(docs, d) + r + first + (last - first) == Start(docs, d) + (r + last);
    }
  }

  /** Whichever trigrams are chosen, a document iterator over their hits offers the places where they stand. */
  lemma MarkedOffers(it: NgramDocIterator, t: PostingTable, first: nat, last: nat, m: Matching, pat: seq<Token>, docs: Docs)
    requires it.ends == Ends(docs) && it.leftPad == first && it.rightPad == |pat| - first && first <= |pat| && |pat| >= 3
    requires MarksBoth(it.all, first, last, m, pat, docs) && AreRarest(FrequenciesOf(t, m, pat), first, last)
    requires forall i :: 0 <= i < |pat| - 2 ==> FrequenciesOf(t, m, pat)[i] > 0
    ensures OffersExactly(ByTrigram(it), t, m, pat, docs)
  {
    hide Start, Ends, BothAt, AreRarest, FrequenciesOf;
    forall d, r | 0 <= d < |docs| ensures r in ByTrigram(it).Offers(d) <==> Offered(t, m, pat, docs[d], r) {
      EndsAreStarts(docs, d);
      OffersOne(it, first, docs, d, r, |pat|);
      if Offered(t, m, pat, docs[d], r) {
        var f, l :| AreRarest(FrequenciesOf(t, m, pat), f, l) && BothAt(m, pat, f, l, docs[d], r);
        RarestUnique(FrequenciesOf(t, m, pat), first, last, f, l);
      }
    }
  }

  lemma OffersOne(it: NgramDocIterator, first: nat, docs: Docs, d: nat, r: int, n: nat)
    requires it.leftPad == first && it.rightPad == n - first && first <= n && d < |docs| && d < |it.ends|
    requires StartOf(it.ends, d) == Start(docs, d) && it.ends[d] == Start(docs, d) + |docs[d]|
    ensures r in ByTrigram(it).Offers(d) <==> 0 <= r && r + n <= |docs[d]| && Start(docs, d) + r + first in it.all
  {
    hide Start;
    var p := Start(docs, d) + r + first;
    assert Fits(StartOf(it.ends, d), it.ends[d], it.leftPad, it.rightPad, p) <==> 0 <= r && r + n <= |docs[d]|;
  }

  lemma EndsAreStarts(docs: Docs, d: nat)
    requires d < |docs|
    ensures (if d == 0 then 0 else Ends(docs)[d - 1]) == Start(docs, d)
    ensures Ends(docs)[d] == Start(docs, d) + |docs[d]|
  {
    StartStep(docs, d);
    StartStep(docs, 0);
  }

  lemma HitsBounded(docs: Docs, vs: seq<Ngram>)
    ensures forall p :: p in HitsOfAny(docs, vs) ==> 0 <= p && p + 3 <= |Flat(docs)|
  {
    forall p | p in HitsOfAny(docs, vs) ensures 0 <= p && p + 3 <= |Flat(docs)| {
      var i :| 0 <= i < |vs| && p in CorpusHits(docs, vs[i]);
      CorpusHitsExact(docs, vs[i]);
    }
  }

  /** The frequencies of all the trigrams; none if one never occurs (indexdata.go:202-221). */
  method Frequencies(t: PostingTable, m: Matching, ngs: seq<NgramOff>, ghost pattern: seq<byte>)
    returns (freqs: Option<seq<u32>>)
    requires m.Ok() && FrequenciesFit(t)
    requires |ngs| == |Tokens(pattern)| - 2 >= 1
    requires forall i :: 0 <= i < |ngs| ==> Describes(ngs[i], pattern, i)
    ensures freqs.None? <==> exists i :: 0 <= i < |ngs| && FrequenciesOf(t, m, Tokens(pattern))[i] == 0
    ensures freqs.Some? ==> freqs.value == FrequenciesOf(t, m, Tokens(pattern))
                            && forall i :: 0 <= i < |ngs| ==> freqs.value[i] < MaxU32
  {
    hide AreVariants, FrequenciesFit, VariantSet, Total, Tokens;
    ghost var pat := Tokens(pattern);
    var fs: seq<u32> := [];
    for i := 0 to |ngs|
      invariant |fs| == i && forall k :: 0 <= k < i ==> 0 < fs[k] == Total(t, VariantSet(m, pat, k)) < MaxU32
    {
      assert ngs[i].ngram == Trigram(pat, i) by { DescribesTrigram(ngs[i], pattern, i); }
      var vs := Variants(m, ngs[i].ngram, pat, i);
      VariantsTotal(t, m, pat, i, vs);
      var freq := CountVariants(t, vs);
      if freq == 0 {
        assert FrequenciesOf(t, m, pat)[i] == 0;
        return None;
      }
      fs := fs + [freq];
    }
    assert fs == FrequenciesOf(t, m, pat);
    return Some(fs);
  }

  lemma DescribesTrigram(e: NgramOff, pattern: seq<byte>, i: nat)
    requires Describes(e, pattern, i)
    ensures i + 3 <= |Tokens(pattern)| && e.ngram == Trigram(Tokens(pattern), i)
  {
  }

  lemma VariantsTotal(t: PostingTable, m: Matching, pat: seq<Token>, i: nat, vs: seq<Ngram>)
    requires i + 3 <= |pat| && AreVariants(m, pat, i, vs)
    ensures NoDuplicates(vs) && SumFrequency(t, vs) == Total(t, VariantSet(m, pat, i))
  {
    hide IsTrigram, Total;
    SumIsTotal(t, vs, VariantSet(m, pat, i));
  }

  /** The iterator for the i-th trigram of the pattern. */
  method NewMarkingIterator(t: PostingTable, m: Matching, e: NgramOff, ghost i: nat,
                            ghost pattern: seq<byte>, ghost docs: Docs)
    returns (it: TrigramIterator)
    requires m.Ok() && t.Holds(docs) && |Flat(docs)| < MaxU32 && Describes(e, pattern, i)
    ensures fresh(it.Objects()) && it.Valid()
    ensures forall p :: p in it.Hits() ==> 0 <= p && p + 3 <= |Flat(docs)|
    ensures Marks(it.Hits(), i, m, Tokens(pattern), docs)
  {
    hide PostingTable.Holds, AreVariants, Marks, TrigramIterator.Valid, TrigramIterator.Hits, Flat, HitsOfAny;
    var vs := Variants(m, e.ngram, Tokens(pattern), i);
    it := NewTrigramIterator(t, vs, docs);
    HitsBounded(docs, vs);
    HitsMark(m, Tokens(pattern), docs, i, vs);
  }

  /** newDistanceTrigramIter. */
  method NewDistanceIterator(i1: TrigramIterator, i2: TrigramIterator, first: nat, last: nat)
    returns (iter: HitIterator)
    requires i1.Valid() && i2.Valid() && i1.Objects() !! i2.Objects() && first < last <= MaxU32
    requires forall p :: p in i1.Hits() ==> 0 <= p && p + last <= MaxU32
    requires forall p :: p in i2.Hits() ==> 0 <= p < MaxU32
    ensures iter.Valid() && iter.TwoTrigrams? && fresh(iter.two)
    ensures iter.Objects() == {iter.two} + i1.Objects() + i2.Objects()
    ensures iter.Hits() == AtDistance(i1.Hits(), i2.Hits(), last - first)
    ensures forall p :: p in iter.Hits() ==> 0 <= p
  {
    hide TrigramIterator.Valid, TrigramIterator.Hits;
    var dist := new DistanceHitIterator(i1, i2, last - first);
    return TwoTrigrams(dist);
  }

  /** The iterator for the trigrams at `first` and `last` (indexdata.go:241-255). */
  method NewHitIterator(t: PostingTable, m: Matching, ngs: seq<NgramOff>, first: nat, last: nat,
                        ghost pattern: seq<byte>, ghost docs: Docs)
    returns (iter: HitIterator)
    requires m.Ok() && t.Holds(docs) && |Flat(docs)| + |Tokens(pattern)| <= MaxU32
    requires |ngs| == |Tokens(pattern)| - 2 && first <= last < |ngs|
    requires forall i :: 0 <= i < |ngs| ==> Describes(ngs[i], pattern, i)
    ensures fresh(iter.Objects()) && iter.Valid()
    ensures forall p :: p in iter.Hits() ==> 0 <= p
    ensures MarksBoth(iter.Hits(), first, last, m, Tokens(pattern), docs)
  {
    hide PostingTable.Holds, Marks, MarksBoth, TrigramIterator.Valid, TrigramIterator.Hits, Flat, Tokens, Describes,
      DistanceHitIterator.Valid, DistanceHitIterator.Hits, DistanceHitIterator.Objects, AtDistance, Matching.Ok;
    var i1 := NewMarkingIterator(t, m, ngs[first], first, pattern, docs);
    if first == last {
      OneMarks(i1.Hits(), first, m, Tokens(pattern), docs);
      return OneTrigram(i1);
    }
    ghost var h1 := i1.Hits();
    var i2 := NewMarkingIterator(t, m, ngs[last], last, pattern, docs);
    assert i1.Valid() && i1.Hits() == h1;
    TwoMark(h1, i2.Hits(), first, last, m, Tokens(pattern), docs);
    iter := NewDistanceIterator(i1, i2, first, last);
  }

  lemma NothingOffers(t: PostingTable, m: Matching, pat: seq<Token>, docs: Docs)
    requires |pat| >= 3 && exists i :: 0 <= i < |pat| - 2 && FrequenciesOf(t, m, pat)[i] == 0
    ensures OffersExactly(Nothing, t, m, pat, docs)
  {
    hide FrequenciesOf, AreRarest;
  }

  /** iterateNgrams: the iterator offers exactly the places where the two rarest trigrams of the pattern stand. */
  method IterateNgrams(t: PostingTable, endRunes: seq<u32>, m: Matching, pattern: seq<byte>, ghost docs: Docs)
    returns (it: PlainIterator)
    requires m.Ok() && t.Holds(docs) && FrequenciesFit(t)
    requires |Tokens(pattern)| >= 3 && |Flat(docs)| + |Tokens(pattern)| <= MaxU32
    requires endRunes == Ends(docs) && |docs| <= 0x8000_0000
    ensures fresh(it.Objects()) && it.Ready(-1) && it.Counts(endRunes)
    ensures OffersExactly(it, t, m, Tokens(pattern), docs)
  {
    hide PostingTable.Holds, MarksBoth, HitIterator.Valid, HitIterator.Hits, Flat, FrequenciesOf, AreRarest, FrequenciesFit, Ends,
      Tokens, Describes, Matching.Ok, NgramDocIterator.Valid, OffersExactly;
    ghost var pat := Tokens(pattern);
    var ngs := SplitNGrams(pattern);
    var freqs := Frequencies(t, m, ngs, pattern);
    if freqs.None? {
      NothingOffers(t, m, pat, docs);
      return Nothing;
    }
    var first, last := ChooseTwo(freqs.value);
    var iter := NewHitIterator(t, m, ngs, first, last, pattern, docs);
    EndsNondecreasing(docs);
    var doc := new NgramDocIterator(first, |Tokens(pattern)| - first, iter, endRunes);
    MarkedOffers(doc, t, first, last, m, pat, docs);
    return ByTrigram(doc);
  }
}
