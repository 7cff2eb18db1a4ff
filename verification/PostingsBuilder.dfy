/** The postings builder of indexbuilder.go: one document after the other, rune by rune. */
module Postings {
  import opened Machine
  import opened Utf8
  import opened Ngrams
  import opened Corpus
  import opened DeltaCodec
  import Varint

  function Blob(postings: map<Ngram, seq<byte>>, ng: Ngram): seq<byte> {
    if ng in postings then postings[ng] else []
  }

  function LastOffset(lastOffsets: map<Ngram, u32>, ng: Ngram): u32 {
    if ng in lastOffsets then lastOffsets[ng] else 0
  }

  /** The blob and the last offset kept for a trigram are those of its posting list. */
  ghost predicate Holds(blob: seq<byte>, last: int, list: seq<int>) {
    blob == Deltas(list, 0) && last == LastOr(list, 0)
  }

  /** Every trigram's blob holds its posting list, as deltas. */
  ghost predicate HoldsAll(postings: map<Ngram, seq<byte>>, lastOffsets: map<Ngram, u32>, hits: Ngram -> seq<int>) {
    forall ng: Ngram :: Holds(Blob(postings, ng), LastOffset(lastOffsets, ng), hits(ng))
  }

  /** The posting lists of a corpus. */
  ghost function HitsOf(docs: Docs): Ngram -> seq<int> {
    (ng: Ngram) => CorpusHits(docs, ng)
  }

  lemma HoldsGrown(blob: seq<byte>, last: int, list: seq<int>, newOff: int)
    requires Holds(blob, last, list)
    ensures Holds(blob + Varint.Put(Wrap(newOff - last)), newOff, list + [newOff])
  {
    DeltasAppend(list, newOff, 0);
  }

  lemma HoldsAllGrown(postings: map<Ngram, seq<byte>>, lastOffsets: map<Ngram, u32>,
                      hits: Ngram -> seq<int>, hits': Ngram -> seq<int>, ng: Ngram, newOff: u32, blob: seq<byte>)
    requires HoldsAll(postings, lastOffsets, hits)
    requires Holds(blob, newOff, hits'(ng))
    requires forall g: Ngram :: g != ng ==> hits'(g) == hits(g)
    ensures HoldsAll(postings[ng := blob], lastOffsets[ng := newOff], hits')
  {
    var postings', lastOffsets' := postings[ng := blob], lastOffsets[ng := newOff];
    forall g: Ngram ensures Holds(Blob(postings', g), LastOffset(lastOffsets', g), hits'(g)) {
      if g != ng {
        assert Holds(Blob(postings, g), LastOffset(lastOffsets, g), hits(g));
      }
    }
  }

  lemma HoldsAllSame(postings: map<Ngram, seq<byte>>, lastOffsets: map<Ngram, u32>,
                     hits: Ngram -> seq<int>, hits': Ngram -> seq<int>)
    requires HoldsAll(postings, lastOffsets, hits)
    requires forall g: Ngram :: hits'(g) == hits(g)
    ensures HoldsAll(postings, lastOffsets, hits')
  {
  }

  /** The first two runes of a document complete no trigram. */
  lemma HitsStay(docs: Docs, ts: seq<Token>)
    requires |ts| < 3
    ensures forall g: Ngram :: HitsOf(docs + [ts])(g) == HitsOf(docs)(g)
  {
    forall g: Ngram ensures CorpusHits(docs + [ts], g) == CorpusHits(docs, g) {
      assert (docs + [ts])[..|docs|] == docs;
    }
  }

  /** Every other rune adds one hit to the trigram it completes. */
  lemma HitsGrow(docs: Docs, ts: seq<Token>, ng: Ngram, newOff: int)
    requires |ts| >= 3 && ng == Trigram(ts, |ts| - 3) && newOff == |Flat(docs)| + |ts| - 3
    ensures var hits, hits' := HitsOf(docs + [ts[..|ts| - 1]]), HitsOf(docs + [ts]);
            hits'(ng) == hits(ng) + [newOff] && forall g: Ngram :: g != ng ==> hits'(g) == hits(g)
  {
    hide CorpusHits, Trigram, Flat;
    forall g: Ngram
      ensures CorpusHits(docs + [ts], g) ==
              CorpusHits(docs + [ts[..|ts| - 1]], g) + if g == ng then [newOff] else []
    {
      CorpusHitsGrow(docs, ts, g);
    }
  }

  /** The bytes before rune number `100 * k` (runeOffsetFrequency is 100). */
  ghost function SampleAt(flat: seq<Token>, k: nat): nat {
    if 100 * k <= |flat| then Width(flat[..100 * k]) else 0
  }

  /** One byte offset for every hundredth rune of the corpus. */
  ghost predicate Sampled(runeOffsets: seq<int>, flat: seq<Token>) {
    && 100 * |runeOffsets| - 100 < |flat| <= 100 * |runeOffsets|
    && forall k :: 0 <= k < |runeOffsets| ==> runeOffsets[k] == SampleAt(flat, k)
  }

  /** No token takes more than one byte. */
  ghost predicate Narrow(ts: seq<Token>) {
    forall i :: 0 <= i < |ts| ==> ts[i].size <= 1
  }

  lemma NarrowGrow(a: seq<Token>, t: Token)
    ensures Narrow(a + [t]) <==> Narrow(a) && t.size <= 1
  {
    assert forall i :: 0 <= i < |a| ==> (a + [t])[i] == a[i];
    assert (a + [t])[|a|] == t;
  }

  lemma SampleStable(flat: seq<Token>, t: Token, k: nat)
    requires 100 * k <= |flat|
    ensures SampleAt(flat + [t], k) == SampleAt(flat, k)
  {
    assert (flat + [t])[..100 * k] == flat[..100 * k];
  }

  /** The sample table gains an entry at every hundredth rune ... */
  lemma SampledGrow(runeOffsets: seq<int>, flat: seq<Token>, t: Token)
    requires Sampled(runeOffsets, flat) && |flat| % 100 == 0
    ensures Sampled(runeOffsets + [Width(flat)], flat + [t])
  {
    var n := |runeOffsets|;
    FullHundred(|flat|, n);
    assert SampleAt(flat, n) == Width(flat) by { assert flat[..|flat|] == flat; }
    hide Width, SampleAt;
    var grown := runeOffsets + [Width(flat)];
    forall k | 0 <= k < |grown| ensures grown[k] == SampleAt(flat + [t], k) {
      SampleStable(flat, t, k);
    }
  }

  lemma FullHundred(m: nat, n: nat)
    requires 100 * n - 100 < m <= 100 * n && m % 100 == 0
    ensures m == 100 * n
  {
  }

  /** ... and only there. */
  lemma SampledStay(runeOffsets: seq<int>, flat: seq<Token>, t: Token)
    requires Sampled(runeOffsets, flat) && |flat| % 100 != 0
    ensures Sampled(runeOffsets, flat + [t])
  {
    forall k | 0 <= k < |runeOffsets| ensures runeOffsets[k] == SampleAt(flat + [t], k) {
      SampleStable(flat, t, k);
    }
  }

  /** Positions and byte offsets inside the document being added stay below 2^32. */
  lemma BoundsInside(files: seq<seq<byte>>, data: seq<byte>, r: nat)
    requires |Bytes(files)| + |data| < MaxU32 && r <= |Tokens(data)|
    ensures |Flat(Tokenize(files))| + r < MaxU32
    ensures |Bytes(files)| + Offset(data, r) == Width(Flat(Tokenize(files)) + Tokens(data)[..r])
  {
    WidthOfCorpus(files);
    OffsetEnds(data);
    WidthOfTokens(data, r);
    WidthAppend(Flat(Tokenize(files)), Tokens(data)[..r]);
  }

  lemma EndsAppend(docs: Docs, ts: seq<Token>)
    ensures Ends(docs + [ts]) == Ends(docs) + [|Flat(docs)| + |ts|]
  {
    var more := docs + [ts];
    forall d | 0 <= d < |docs| ensures Ends(more)[d] == Ends(docs)[d] {
      StartOfPrefix(docs, [ts], d + 1);
    }
    FlatAppend(docs, ts);
    assert more[..|more|] == more;
  }

  /** After `i` runes of `data`: what is left, how many bytes were read, and the last two runes. */
  ghost predicate Scanned(data: seq<byte>, i: nat, rest: seq<byte>, byteCount: int, g1: Rune, g2: Rune) {
    && i <= |Tokens(data)| && rest == Suffix(data, i) && byteCount == Offset(data, i)
    && (i >= 1 ==> g2 == Tokens(data)[i - 1].rune)
    && (i >= 2 ==> g1 == Tokens(data)[i - 2].rune)
  }

  lemma ScanStep(data: seq<byte>, i: nat, rest: seq<byte>, byteCount: int, g1: Rune, g2: Rune)
    requires Scanned(data, i, rest, byteCount, g1, g2) && rest != []
    ensures i < |Tokens(data)| && Decode(rest) == Tokens(data)[i] && Decode(rest).size >= 1
    ensures Scanned(data, i + 1, rest[Decode(rest).size..], byteCount + Decode(rest).size, g2, Decode(rest).rune)
  {
    SuffixTokens(data, i);
    SuffixStep(data, i);
    OffsetStep(data, i);
  }

  // ----- section boundaries -----

  /** Byte `b` of `data` is where a rune starts, or the end of the data. */
  ghost predicate Aligned(data: seq<byte>, b: nat) {
    exists r :: 0 <= r <= |Tokens(data)| && Offset(data, r) == b
  }

  /** The byte boundaries `bs` and the rune boundaries `rs`, counted from `base`, mark the same places. */
  ghost predicate SamePlaces(data: seq<byte>, base: nat, bs: seq<u32>, rs: seq<u32>) {
    && |bs| == |rs|
    && forall j :: 0 <= j < |rs| ==>
         base <= rs[j] <= base + |Tokens(data)| && Offset(data, rs[j] - base) == bs[j]
  }

  /** How many of the boundaries are found if they are looked for in order, from byte `from` on. */
  ghost function Taken(data: seq<byte>, bs: seq<u32>, from: nat): (k: nat)
    ensures k <= |bs|
  {
    if bs == [] || bs[0] < from || !Aligned(data, bs[0]) then 0 else 1 + Taken(data, bs[1..], bs[0])
  }

  lemma {:induction false} TakenIs(data: seq<byte>, bs: seq<u32>, from: nat, k: nat)
    requires k <= |bs| && Nondecreasing(bs[..k]) && (k > 0 ==> from <= bs[0])
    requires forall j :: 0 <= j < k ==> Aligned(data, bs[j])
    requires k < |bs| ==> !Aligned(data, bs[k]) || bs[k] < if k == 0 then from else bs[k - 1]
    ensures Taken(data, bs, from) == k
    decreases k
  {
    hide Aligned;
    if k > 0 {
      var rest := bs[1..];
      assert forall j :: 0 <= j < |rest| ==> rest[j] == bs[j + 1];
      assert rest[..k - 1] == bs[..k][1..];
      assert k > 1 ==> bs[..k][0] <= bs[..k][1];
      TakenIs(data, rest, bs[0], k - 1);
    }
  }

  /** A boundary that is not found lies in the data, after boundaries that do not end it (indexbuilder.go:123-125). */
  ghost predicate LeavesBehind(data: seq<byte>, bs: seq<u32>) {
    var k := Taken(data, bs, 0);
    k < |bs| && bs[k] < |data| && (k > 0 ==> bs[k - 1] < |data|)
  }

  /**
   * After `i` runes the first boundaries are converted. The next one is not among the places passed, unless it comes
   * before the one that was converted last.
   */
  ghost predicate Converting(data: seq<byte>, base: nat, all: seq<u32>, left: seq<u32>, rs: seq<u32>, i: nat) {
    && |rs| <= |all| && left == all[|rs|..]
    && SamePlaces(data, base, all[..|rs|], rs) && Nondecreasing(all[..|rs|])
    && i <= |Tokens(data)|
    && (|rs| > 0 ==> all[|rs| - 1] <= Offset(data, i))
    && forall r :: 0 <= r < i && left != [] && Offset(data, r) == left[0] ==> |rs| > 0 && left[0] < all[|rs| - 1]
  }

  /** The inner loop at indexbuilder.go:101: all boundaries standing at the current byte. */
  method TakeBoundaries(data: seq<byte>, ghost base: nat, ghost all: seq<u32>,
                        left: seq<u32>, rs: seq<u32>, byteCount: u32, rune: u32, ghost i: nat)
    returns (left': seq<u32>, rs': seq<u32>)
    requires Converting(data, base, all, left, rs, i)
    requires byteCount == Offset(data, i) && rune == base + i
    ensures Converting(data, base, all, left', rs', i)
    ensures left' != [] ==> left'[0] != byteCount
    ensures |rs| <= |rs'| && forall j :: |rs| <= j < |rs'| ==> all[j] == byteCount
  {
    hide Tokens, Offset;
    left', rs' := left, rs;
    while |left'| > 0 && left'[0] == byteCount
      invariant Converting(data, base, all, left', rs', i)
      invariant |rs| <= |rs'| && forall j :: |rs| <= j < |rs'| ==> all[j] == byteCount
      decreases |left'|
    {
      OneTaken(data, base, all, left', rs', i, rune);
      rs' := rs' + [rune];
      left' := left'[1..];
    }
  }

  lemma OneTaken(data: seq<byte>, base: nat, all: seq<u32>, left: seq<u32>, rs: seq<u32>, i: nat, rune: u32)
    requires Converting(data, base, all, left, rs, i) && left != [] && left[0] == Offset(data, i) && rune == base + i
    ensures Converting(data, base, all, left[1..], rs + [rune], i)
  {
    hide Tokens, Offset;
    var k := |rs|;
    assert all[k] == left[0] && all[..k + 1] == all[..k] + [all[k]];
    assert left[1..] == all[k + 1..];
    assert forall j :: 0 <= j < k ==> all[..k][j] <= all[k - 1] by { assert k > 0 ==> all[..k][k - 1] == all[k - 1]; }
    forall r | 0 <= r < i && k + 1 < |all| && Offset(data, r) == all[k + 1] ensures all[k + 1] < all[k] {
      OffsetMonotone(data, r, i);
      OffsetInjective(data, r, i);
    }
  }

  lemma ConvertingNext(data: seq<byte>, base: nat, all: seq<u32>, left: seq<u32>, rs: seq<u32>, i: nat)
    requires Converting(data, base, all, left, rs, i)
    requires i < |Tokens(data)| && (left != [] ==> left[0] != Offset(data, i))
    ensures Converting(data, base, all, left, rs, i + 1)
  {
    hide Tokens, Offset;
    OffsetMonotone(data, i, i + 1);
  }

  /** At the end of the data, what has been converted are the boundaries that are found. */
  lemma ConvertedIsTaken(data: seq<byte>, base: nat, all: seq<u32>, left: seq<u32>, rs: seq<u32>)
    requires Converting(data, base, all, left, rs, |Tokens(data)|) && (left != [] ==> left[0] != |data|)
    ensures Taken(data, all, 0) == |rs|
  {
    hide Tokens, Offset;
    OffsetEnds(data);
    var k := |rs|;
    forall j | 0 <= j < k ensures Aligned(data, all[j]) {
      assert all[..k][j] == all[j] && Offset(data, rs[j] - base) == all[j];
    }
    if k < |all| && Aligned(data, all[k]) {
      var r :| 0 <= r <= |Tokens(data)| && Offset(data, r) == all[k];
      assert left[0] == all[k];
    }
    TakenIs(data, all, 0, k);
  }

  /** Sections that fit are left behind exactly if a boundary splits a rune, and otherwise found to the last. */
  lemma FittingTaken(data: seq<byte>, secs: seq<Section>)
    requires SectionsFit(secs, |data|)
    ensures LeavesBehind(data, Boundaries(secs)) <==> exists b :: b in Boundaries(secs) && !Aligned(data, b)
    ensures LeavesBehind(data, Boundaries(secs)) || Taken(data, Boundaries(secs), 0) == |Boundaries(secs)|
  {
    hide Aligned, Boundaries;
    var bs := Boundaries(secs);
    FittingPrefix(data, bs, 0);
    EndAligned(data);
    var k := Taken(data, bs, 0);
    if k < |bs| {
      assert bs[k] in bs;
      assert k > 0 ==> bs[k - 1] <= bs[k];
    } else {
      forall b | b in bs ensures Aligned(data, b) {
        var j :| 0 <= j < |bs| && bs[j] == b;
      }
    }
  }

  /** A section that ends before it starts, past the end of the text, is dropped, with all that follow, and is no error. */
  lemma BackwardDropped(data: seq<byte>, start: u32, end: u32)
    requires end < |data| < start
    ensures Taken(data, Boundaries([Section(start, end)]), 0) == 0 && !LeavesBehind(data, Boundaries([Section(start, end)]))
  {
    var bs := Boundaries([Section(start, end)]);
    assert bs == [start, end] by { BoundariesAppend([], Section(start, end)); assert [] + [Section(start, end)] == [Section(start, end)]; }
    forall r | 0 <= r <= |Tokens(data)| ensures Offset(data, r) != start {
      OffsetMonotone(data, r, |Tokens(data)|);
      OffsetEnds(data);
    }
  }

  lemma EndAligned(data: seq<byte>)
    ensures Aligned(data, |data|)
  {
    OffsetEnds(data);
  }

  lemma {:induction false} FittingPrefix(data: seq<byte>, bs: seq<u32>, from: nat)
    requires Nondecreasing(bs) && (bs != [] ==> from <= bs[0])
    ensures forall j :: 0 <= j < Taken(data, bs, from) ==> Aligned(data, bs[j])
    ensures Taken(data, bs, from) < |bs| ==> !Aligned(data, bs[Taken(data, bs, from)])
    decreases |bs|
  {
    hide Aligned;
    if bs != [] && Aligned(data, bs[0]) {
      var rest := bs[1..];
      assert forall j :: 0 <= j < |rest| ==> rest[j] == bs[j + 1];
      FittingPrefix(data, rest, bs[0]);
      forall j | 0 <= j < Taken(data, bs, from) ensures Aligned(data, bs[j]) {
        assert j > 0 ==> rest[j - 1] == bs[j];
      }
    }
  }

  /** The final loop of newSearchableString: boundaries two by two. */
  method PairUp(rs: seq<u32>) returns (secs: seq<Section>)
    requires |rs| % 2 == 0
    ensures Boundaries(secs) == rs
  {
    secs := [];
    var i := 0;
    while i < |rs|
      invariant 0 <= i <= |rs| && i % 2 == 0
      invariant Boundaries(secs) == rs[..i]
    {
      var s := Section(rs[i], rs[i + 1]);
      BoundariesAppend(secs, s);
      assert rs[..i + 2] == rs[..i] + [rs[i], rs[i + 1]];
      secs := secs + [s];
      i := i + 2;
    }
    assert rs[..i] == rs;
  }

  /** Sections as Add should pass them on: in order, not overlapping, inside the data. */
  ghost predicate SectionsFit(secs: seq<Section>, size: nat) {
    && Nondecreasing(Boundaries(secs))
    && forall b :: b in Boundaries(secs) ==> b <= size
  }

  /**
   * The end of newSearchableString: the boundaries at the end of the data, or the error (indexbuilder.go:123-141). What
   * is not found by then is dropped; half a section would be an index out of range, an error here.
   */
  method FinishBoundaries(data: seq<byte>, ghost base: nat, ghost secs: seq<Section>,
                          left: seq<u32>, rs: seq<u32>, runeCount: u32)
    returns (r: Result<seq<Section>>)
    requires |data| <= MaxU32
    requires Converting(data, base, Boundaries(secs), left, rs, |Tokens(data)|)
    requires runeCount == base + |Tokens(data)| && (rs != [] ==> Boundaries(secs)[|rs| - 1] < |data|)
    ensures r.Err? <==> LeavesBehind(data, Boundaries(secs)) || Taken(data, Boundaries(secs), 0) % 2 == 1
    ensures r.Ok? ==> SamePlaces(data, base, Boundaries(secs)[..Taken(data, Boundaries(secs), 0)], Boundaries(r.value))
  {
    hide Tokens, Offset, Boundaries, Taken;
    ghost var all: seq<u32> := Boundaries(secs);
    OffsetEnds(data);
    if |left| > 0 && left[0] < |data| {
      ConvertedIsTaken(data, base, all, left, rs);
      return Err("no rune for section boundary");
    }
    var left', rs' := TakeBoundaries(data, base, all, left, rs, |data|, runeCount, |Tokens(data)|);
    ConvertedIsTaken(data, base, all, left', rs');
    assert !LeavesBehind(data, all) by {
      if |rs'| == |rs| { assert left' == left; } else { assert all[|rs'| - 1] == |data|; }
    }
    if |rs'| % 2 == 1 {
      return Err("index out of range");
    }
    var secs' := PairUp(rs');
    return Ok(secs');
  }

  /** The tables describe exactly the documents `files`. */
  ghost predicate Describe(postings: map<Ngram, seq<byte>>, lastOffsets: map<Ngram, u32>, runeOffsets: seq<int>,
                           runeCount: int, isPlainASCII: bool, endRunes: seq<int>, endByte: int,
                           files: seq<seq<byte>>)
  {
    && |Bytes(files)| < MaxU32
    && |Flat(Tokenize(files))| < MaxU32
    && HoldsAll(postings, lastOffsets, HitsOf(Tokenize(files)))
    && Sampled(runeOffsets, Flat(Tokenize(files)))
    && runeCount == |Flat(Tokenize(files))|
    && (isPlainASCII <==> Narrow(Flat(Tokenize(files))))
    && endRunes == Ends(Tokenize(files))
    && endByte == |Bytes(files)|
  }

  class PostingsBuilder {
    var postings: map<Ngram, seq<byte>>
    var lastOffsets: map<Ngram, u32>
    var runeOffsets: seq<u32>
    var runeCount: u32
    var isPlainASCII: bool
    var endRunes: seq<u32>
    var endByte: u32

    /** The documents added so far. */
    ghost var files: seq<seq<byte>>

    ghost predicate Valid()
      reads this
    {
      Describe(postings, lastOffsets, runeOffsets, runeCount, isPlainASCII, endRunes, endByte, files)
    }

    constructor ()
      ensures Valid() && files == []
    {
      postings := map[];
      lastOffsets := map[];
      runeOffsets := [];
      runeCount := 0;
      isPlainASCII := true;
      endRunes := [];
      endByte := 0;
      files := [];
    }

    /** The tables when the last document is `ts` so far. */
    ghost predicate Partial(docs: Docs, ts: seq<Token>)
      reads this
    {
      && HoldsAll(postings, lastOffsets, HitsOf(docs + [ts]))
      && Sampled(runeOffsets, Flat(docs) + ts)
      && (isPlainASCII <==> Narrow(Flat(docs) + ts))
    }

    /** Keep the width flag and the sample table up to date (indexbuilder.go:91-100). */
    method NoteRune(t: Token, idx: u32, byteOff: u32, ghost flat: seq<Token>)
      requires Sampled(runeOffsets, flat) && (isPlainASCII <==> Narrow(flat))
      requires idx == |flat| && byteOff == Width(flat)
      modifies this`isPlainASCII, this`runeOffsets
      ensures Sampled(runeOffsets, flat + [t]) && (isPlainASCII <==> Narrow(flat + [t]))
    {
      NarrowGrow(flat, t);
      if t.size > 1 {
        isPlainASCII := false;
      }
      if idx % 100 == 0 {
        SampledGrow(runeOffsets, flat, t);
        runeOffsets := runeOffsets + [byteOff];
      } else {
        SampledStay(runeOffsets, flat, t);
      }
    }

    /** Append the offset of the trigram that the last rune of `ts` completes (indexbuilder.go:109-119). */
    method AddTrigram(g0: Rune, g1: Rune, g2: Rune, endRune: u32, runeIndex: u32, ghost docs: Docs, ghost ts: seq<Token>)
      requires |ts| == runeIndex + 1 && endRune == |Flat(docs)| && endRune + runeIndex <= MaxU32
      requires HoldsAll(postings, lastOffsets, HitsOf(docs + [ts[..|ts| - 1]]))
      requires g2 == ts[|ts| - 1].rune
      requires runeIndex >= 2 ==> g1 == ts[|ts| - 2].rune && g0 == ts[|ts| - 3].rune
      modifies this`postings, this`lastOffsets
      ensures HoldsAll(postings, lastOffsets, HitsOf(docs + [ts]))
    {
      ghost var hits, hits' := HitsOf(docs + [ts[..|ts| - 1]]), HitsOf(docs + [ts]);
      if runeIndex < 2 {
        HitsStay(docs, ts);
        HitsStay(docs, ts[..|ts| - 1]);
        HoldsAllSame(postings, lastOffsets, hits, hits');
        return;
      }
      var ng := Pack(g0, g1, g2);
      var lastOff, newOff := LastOffset(lastOffsets, ng), endRune + runeIndex - 2;
      var blob := Blob(postings, ng) + Varint.Put(Wrap(newOff - lastOff));
      HitsGrow(docs, ts, ng, newOff);
      HoldsGrown(Blob(postings, ng), lastOff, hits(ng), newOff);
      HoldsAllGrown(postings, lastOffsets, hits, hits', ng, newOff, blob);
      postings := postings[ng := blob];
      lastOffsets := lastOffsets[ng := newOff];
    }

    lemma StartDocument(data: seq<byte>)
      requires Valid()
      ensures Partial(Tokenize(files), Tokens(data)[..0])
    {
      var docs := Tokenize(files);
      assert Flat(docs) + [] == Flat(docs);
      assert Tokens(data)[..0] == [];
      HitsStay(docs, []);
      HoldsAllSame(postings, lastOffsets, HitsOf(docs), HitsOf(docs + [[]]));
    }

    /** The tables agree with the documents, apart from the document being read, of which they have `ts`. */
    ghost predicate Reading(ts: seq<Token>)
      reads this
    {
      && |Bytes(files)| < MaxU32
      && Partial(Tokenize(files), ts)
      && runeCount == |Flat(Tokenize(files))|
      && endRunes == Ends(Tokenize(files))
      && endByte == |Bytes(files)|
    }

    /** A document read to its end completes the tables for one more document. */
    lemma ReadingDone(data: seq<byte>, runeCount': u32)
      requires Reading(Tokens(data)) && |Bytes(files)| + |data| < MaxU32
      requires runeCount' == runeCount + |Tokens(data)|
      ensures Describe(postings, lastOffsets, runeOffsets, runeCount', isPlainASCII,
                       endRunes + [runeCount'], endByte + |data|, files + [data])
    {
      hide Flat, Tokenize, Bytes, Ends, HoldsAll, HitsOf, Sampled, Narrow, Tokens;
      DocumentRead(files, data);
      BoundsInside(files, data, |Tokens(data)|);
    }

    /** One turn of the loop at indexbuilder.go:89 on the tables. */
    method ReadRune(t: Token, runeIndex: u32, byteCount: u32, g0: Rune, g1: Rune, g2: Rune, ghost data: seq<byte>)
      requires runeIndex < |Tokens(data)| && Reading(Tokens(data)[..runeIndex])
      requires |Bytes(files)| + |data| < MaxU32 && byteCount == Offset(data, runeIndex)
      requires t == Tokens(data)[runeIndex] && g2 == t.rune
      requires runeIndex >= 2 ==> g1 == Tokens(data)[runeIndex - 1].rune && g0 == Tokens(data)[runeIndex - 2].rune
      modifies this`isPlainASCII, this`runeOffsets, this`postings, this`lastOffsets
      ensures Reading(Tokens(data)[..runeIndex + 1])
    {
      hide Flat, Tokenize, Bytes, Ends, HoldsAll, HitsOf, Sampled, Narrow, Tokens, Width;
      ghost var docs, ts := Tokenize(files), Tokens(data);
      ghost var seen := ts[..runeIndex];
      BoundsInside(files, data, runeIndex);
      assert ts[..runeIndex + 1] == seen + [t] && (seen + [t])[..runeIndex] == seen;
      assert Flat(docs) + seen + [t] == Flat(docs) + (seen + [t]);
      NoteRune(t, runeCount + runeIndex, endByte + byteCount, Flat(docs) + seen);
      AddTrigram(g0, g1, g2, runeCount, runeIndex, docs, seen + [t]);
    }

    /** The loop at indexbuilder.go:89. */
    method ReadDocument(data: seq<byte>, boundaries: seq<u32>)
      returns (runeIndex: u32, left: seq<u32>, runeBoundaries: seq<u32>)
      requires Valid() && endByte + |data| < MaxU32
      modifies this`isPlainASCII, this`runeOffsets, this`postings, this`lastOffsets
      ensures runeIndex == |Tokens(data)| && Reading(Tokens(data))
      ensures Converting(data, runeCount, boundaries, left, runeBoundaries, runeIndex)
      ensures runeBoundaries != [] ==> boundaries[|runeBoundaries| - 1] < |data|
    {
      hide Flat, Tokenize, Bytes, Ends, HoldsAll, HitsOf, Sampled, Narrow;
      left, runeBoundaries := boundaries, [];
      var rest := data;
      var g0: Rune, g1: Rune, g2: Rune := 0, 0, 0;
      var byteCount := 0;
      runeIndex := 0;
      StartDocument(data);
      while rest != []
        invariant Scanned(data, runeIndex, rest, byteCount, g1, g2)
        invariant Reading(Tokens(data)[..runeIndex])
        invariant Converting(data, runeCount, boundaries, left, runeBoundaries, runeIndex)
        invariant runeBoundaries != [] ==> boundaries[|runeBoundaries| - 1] < byteCount
        decreases |rest|
      {
        ScanStep(data, runeIndex, rest, byteCount, g1, g2);
        BoundsInside(files, data, runeIndex);
        var t := Decode(rest);
        rest := rest[t.size..];
        g0, g1, g2 := g1, g2, t.rune;
        ReadRune(t, runeIndex, byteCount, g0, g1, g2, data);
        left, runeBoundaries := TakeBoundaries(data, runeCount, boundaries, left, runeBoundaries,
                                               byteCount, runeCount + runeIndex, runeIndex);
        ConvertingNext(data, runeCount, boundaries, left, runeBoundaries, runeIndex);
        assert runeBoundaries != [] ==> boundaries[|runeBoundaries| - 1] <= byteCount;
        byteCount := byteCount + t.size;
        runeIndex := runeIndex + 1;
      }
      SuffixTokens(data, runeIndex);
      OffsetEnds(data);
      assert Tokens(data)[..runeIndex] == Tokens(data);
    }

    /**
     * newSearchableString: index one more document and convert its sections from bytes
     * to runes, those that are found when their boundaries are looked for in order. It
     * fails exactly when a boundary is left behind, or half a section is found; the
     * postings have grown by then, and the tables no longer agree with each other.
     */
    method NewSearchableString(data: seq<byte>, byteSections: seq<Section>) returns (r: Result<seq<Section>>)
      requires Valid()
      requires endByte + |data| < MaxU32
      modifies this
      ensures r.Err? <==> LeavesBehind(data, Boundaries(byteSections)) || Taken(data, Boundaries(byteSections), 0) % 2 == 1
      ensures r.Ok? ==>
                && Valid()
                && files == old(files) + [data]
                && SamePlaces(data, old(runeCount), Boundaries(byteSections)[..Taken(data, Boundaries(byteSections), 0)], Boundaries(r.value))
      ensures r.Err? ==>
                && runeCount == old(runeCount) + |Tokens(data)|
                && endRunes == old(endRunes) && endByte == old(endByte) && files == old(files)
    {
      hide Flat, Tokenize, Bytes, Ends, HoldsAll, HitsOf, Sampled, Narrow, Converting, SamePlaces, Boundaries, Tokens, Offset, Taken, LeavesBehind;
      var endRune := runeCount;
      var runeIndex, left, runeBoundaries := ReadDocument(data, Boundaries(byteSections));
      BoundsInside(files, data, runeIndex);
      ReadingDone(data, endRune + runeIndex);
      runeCount := endRune + runeIndex;
      r := FinishBoundaries(data, endRune, byteSections, left, runeBoundaries, runeCount);
      if r.Ok? {
        endRunes := endRunes + [runeCount];
        endByte := endByte + |data|;
        files := files + [data];
      }
    }
  }

  lemma DocumentRead(files: seq<seq<byte>>, data: seq<byte>)
    ensures Tokenize(files + [data]) == Tokenize(files) + [Tokens(data)]
    ensures Bytes(files + [data]) == Bytes(files) + data
    ensures Flat(Tokenize(files + [data])) == Flat(Tokenize(files)) + Tokens(data)
    ensures Ends(Tokenize(files + [data])) == Ends(Tokenize(files)) + [|Flat(Tokenize(files))| + |Tokens(data)|]
  {
    TokenizeAppend(files, data);
    FlatAppend(Tokenize(files), Tokens(data));
    EndsAppend(Tokenize(files), Tokens(data));
  }
}
