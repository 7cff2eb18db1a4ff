/**
 * The corpus an index describes: documents one after the other, each split
 * into tokens on its own. Hits are token positions in the concatenation.
 */
module Corpus {
  import opened Machine
  import opened Utf8
  import opened Ngrams

  type Docs = seq<seq<Token>>

  function Flat(docs: Docs): seq<Token> {
    if docs == [] then [] else Flat(docs[..|docs| - 1]) + docs[|docs| - 1]
  }

  /** The position of the first token of document `d`; of the end of the corpus when d == |docs|. */
  function Start(docs: Docs, d: nat): nat
    requires d <= |docs|
  {
    |Flat(docs[..d])|
  }

  function End(docs: Docs, d: nat): nat
    requires d < |docs|
  {
    Start(docs, d + 1)
  }

  function Ends(docs: Docs): (ends: seq<nat>)
    ensures |ends| == |docs|
  {
    seq(|docs|, d requires 0 <= d < |docs| => End(docs, d))
  }

  /** The bytes a run of tokens takes. */
  function Width(ts: seq<Token>): nat {
    if ts == [] then 0 else Width(ts[..|ts| - 1]) + ts[|ts| - 1].size
  }

  // ----- layout -----

  lemma FlatAppend(docs: Docs, d: seq<Token>)
    ensures Flat(docs + [d]) == Flat(docs) + d
  {
    assert (docs + [d])[..|docs|] == docs;
  }

  lemma StartStep(docs: Docs, d: nat)
    requires d < |docs|
    ensures End(docs, d) == Start(docs, d) + |docs[d]|
    ensures Start(docs, 0) == 0
  {
    assert docs[..d + 1] == docs[..d] + [docs[d]];
    FlatAppend(docs[..d], docs[d]);
  }

  lemma {:induction false} StartMonotone(docs: Docs, a: nat, b: nat)
    requires a <= b <= |docs|
    ensures Start(docs, a) <= Start(docs, b)
    ensures a < b ==> End(docs, a) <= Start(docs, b)
    decreases b - a
  {
    if a < b {
      StartMonotone(docs, a, b - 1);
      StartStep(docs, b - 1);
    }
  }

  lemma StartOfPrefix(docs: Docs, more: Docs, d: nat)
    requires d <= |docs|
    ensures Start(docs + more, d) == Start(docs, d)
  {
    assert (docs + more)[..d] == docs[..d];
  }

  lemma EndsNondecreasing(docs: Docs)
    ensures Nondecreasing(Ends(docs))
    ensures docs != [] ==> Ends(docs)[|docs| - 1] == |Flat(docs)|
    ensures forall d :: 0 <= d < |docs| ==> Ends(docs)[d] <= |Flat(docs)|
  {
    forall i, j | 0 <= i < j < |docs| ensures Ends(docs)[i] <= Ends(docs)[j] {
      StartMonotone(docs, i + 1, j + 1);
    }
    assert docs[..|docs|] == docs;
    forall d | 0 <= d < |docs| ensures Ends(docs)[d] <= |Flat(docs)| {
      StartMonotone(docs, d + 1, |docs|);
    }
  }

  /** Document `d` occupies exactly its range of the corpus. */
  lemma {:induction false} DocIsSlice(docs: Docs, d: nat)
    requires d < |docs|
    ensures Start(docs, d) <= End(docs, d) <= |Flat(docs)|
    ensures Flat(docs)[Start(docs, d)..End(docs, d)] == docs[d]
  {
    var init, last := docs[..|docs| - 1], docs[|docs| - 1];
    assert init + [last] == docs;
    StartStep(docs, d);
    if d == |docs| - 1 {
      assert docs[..d + 1] == docs;
    } else {
      DocIsSlice(init, d);
      assert docs[..d] == init[..d] && docs[..d + 1] == init[..d + 1];
    }
  }

  // ----- hits -----

  /** Positions of trigram `ng` in one document, whose first token has position `base`. */
  function DocHits(ts: seq<Token>, base: nat, ng: Ngram): seq<nat> {
    if |ts| < 3 then []
    else
      DocHits(ts[..|ts| - 1], base, ng) +
      if Trigram(ts, |ts| - 3) == ng then [base + |ts| - 3] else []
  }

  /** Positions of trigram `ng` in the corpus. No trigram crosses a document boundary. */
  function CorpusHits(docs: Docs, ng: Ngram): seq<nat> {
    if docs == [] then []
    else
      var init := docs[..|docs| - 1];
      CorpusHits(init, ng) + DocHits(docs[|docs| - 1], |Flat(init)|, ng)
  }

  /** Position `p` starts trigram `ng` inside a document whose first token has position `base`. */
  predicate HitAt(ts: seq<Token>, base: nat, p: nat, ng: Ngram) {
    base <= p && p + 3 <= base + |ts| && Trigram(ts, p - base) == ng
  }

  ghost predicate HitIn(docs: Docs, d: nat, p: nat, ng: Ngram) {
    d < |docs| && HitAt(docs[d], Start(docs, d), p, ng)
  }

  lemma IncreasingConcat(a: seq<int>, b: seq<int>)
    requires Increasing(a) && Increasing(b)
    requires forall x, y :: x in a && y in b ==> x < y
    ensures Increasing(a + b)
  {
    var c := a + b;
    forall i, j | 0 <= i < j < |c| ensures c[i] < c[j] {
      assert i < |a| ==> c[i] in a;
      assert j >= |a| ==> c[j] in b;
    }
  }

  lemma {:induction false} DocHitsExact(ts: seq<Token>, base: nat, ng: Ngram)
    ensures Increasing(DocHits(ts, base, ng))
    ensures forall p :: p in DocHits(ts, base, ng) <==> HitAt(ts, base, p, ng)
  {
    if |ts| >= 3 {
      var init := ts[..|ts| - 1];
      DocHitsExact(init, base, ng);
      forall p: nat ensures HitAt(ts, base, p, ng) <==>
          HitAt(init, base, p, ng) || (p == base + |ts| - 3 && Trigram(ts, |ts| - 3) == ng)
      {
        if base <= p && p + 3 <= base + |init| {
          assert Trigram(init, p - base) == Trigram(ts, p - base);
        }
      }
      IncreasingConcat(DocHits(init, base, ng),
                       if Trigram(ts, |ts| - 3) == ng then [base + |ts| - 3] else []);
    }
  }

  /** The posting list of a trigram: increasing, and exactly the places the trigram stands. */
  lemma {:induction false} CorpusHitsExact(docs: Docs, ng: Ngram)
    ensures Increasing(CorpusHits(docs, ng))
    ensures forall p :: p in CorpusHits(docs, ng) ==> p + 3 <= |Flat(docs)|
    ensures forall p :: p in CorpusHits(docs, ng) <==> exists d :: HitIn(docs, d, p, ng)
  {
    if docs != [] {
      var init, last := docs[..|docs| - 1], docs[|docs| - 1];
      assert docs == init + [last];
      var base := |Flat(init)|;
      CorpusHitsExact(init, ng);
      DocHitsExact(last, base, ng);
      IncreasingConcat(CorpusHits(init, ng), DocHits(last, base, ng));
      forall p: nat ensures p in CorpusHits(docs, ng) <==> exists d :: HitIn(docs, d, p, ng) {
        HitSplit(init, last, docs, p, ng);
      }
    }
  }

  lemma HitSplit(init: Docs, last: seq<Token>, docs: Docs, p: nat, ng: Ngram)
    requires docs == init + [last]
    ensures (exists d :: HitIn(docs, d, p, ng)) <==>
            (exists d :: HitIn(init, d, p, ng)) || HitAt(last, |Flat(init)|, p, ng)
  {
    assert forall d :: 0 <= d <= |init| ==> docs[..d] == init[..d];
    assert init[..|init|] == init;
    assert HitIn(docs, |init|, p, ng) <==> HitAt(last, |Flat(init)|, p, ng);
    forall d: nat | d < |init| ensures HitIn(docs, d, p, ng) <==> HitIn(init, d, p, ng) {
      assert docs[..d] == init[..d];
    }
  }

  /** One more token of the last document adds one hit, to the trigram it completes. */
  lemma CorpusHitsGrow(docs: Docs, ts: seq<Token>, ng: Ngram)
    requires ts != []
    ensures var before := CorpusHits(docs + [ts[..|ts| - 1]], ng);
            CorpusHits(docs + [ts], ng) ==
            if |ts| >= 3 && Trigram(ts, |ts| - 3) == ng then before + [|Flat(docs)| + |ts| - 3] else before
  {
    var short := ts[..|ts| - 1];
    assert (docs + [ts])[..|docs|] == docs && (docs + [short])[..|docs|] == docs;
    var base := |Flat(docs)|;
    assert CorpusHits(docs + [ts], ng) == CorpusHits(docs, ng) + DocHits(ts, base, ng);
    assert CorpusHits(docs + [short], ng) == CorpusHits(docs, ng) + DocHits(short, base, ng);
  }

  // ----- widths -----

  lemma {:induction false} WidthAppend(a: seq<Token>, b: seq<Token>)
    ensures Width(a + b) == Width(a) + Width(b)
  {
    if b == [] {
      assert a + b == a;
    } else {
      assert (a + b)[..|a + b| - 1] == a + b[..|b| - 1];
      WidthAppend(a, b[..|b| - 1]);
    }
  }

  lemma {:induction false} WidthOfTokens(s: seq<byte>, r: nat)
    requires r <= |Tokens(s)|
    ensures Width(Tokens(s)[..r]) == Offset(s, r)
  {
    if r > 0 {
      WidthOfTokens(s, r - 1);
      OffsetStep(s, r - 1);
      assert Tokens(s)[..r][..r - 1] == Tokens(s)[..r - 1];
    }
  }

  lemma WidthMonotone(ts: seq<Token>, a: nat, b: nat)
    requires a <= b <= |ts|
    ensures Width(ts[..b]) == Width(ts[..a]) + Width(ts[a..b])
  {
    assert ts[..b] == ts[..a] + ts[a..b];
    WidthAppend(ts[..a], ts[a..b]);
  }

  // ----- documents as bytes -----

  /** Every document tokenized on its own. */
  function Tokenize(files: seq<seq<byte>>): (docs: Docs)
    ensures |docs| == |files|
  {
    seq(|files|, d requires 0 <= d < |files| => Tokens(files[d]))
  }

  function Bytes(files: seq<seq<byte>>): seq<byte> {
    if files == [] then [] else Bytes(files[..|files| - 1]) + files[|files| - 1]
  }

  lemma TokenizeAppend(files: seq<seq<byte>>, f: seq<byte>)
    ensures Tokenize(files + [f]) == Tokenize(files) + [Tokens(f)]
    ensures Bytes(files + [f]) == Bytes(files) + f
  {
    assert (files + [f])[..|files|] == files;
  }

  /** The tokens account for every byte. */
  lemma {:induction false} WidthOfCorpus(files: seq<seq<byte>>)
    ensures Width(Flat(Tokenize(files))) == |Bytes(files)|
    ensures |Flat(Tokenize(files))| <= |Bytes(files)|
  {
    if files != [] {
      var init, last := files[..|files| - 1], files[|files| - 1];
      assert files == init + [last];
      WidthOfCorpus(init);
      TokenizeAppend(init, last);
      FlatAppend(Tokenize(init), Tokens(last));
      WidthAppend(Flat(Tokenize(init)), Tokens(last));
      WidthOfTokens(last, |Tokens(last)|);
      assert Tokens(last)[..|Tokens(last)|] == Tokens(last);
      OffsetEnds(last);
    }
  }
}
