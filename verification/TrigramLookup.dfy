/** From a query trigram to the iterator over its posting lists (trigramHitIterator, hititer.go). */
module TrigramLookup {
  import opened Machine
  import opened Utf8
  import opened Ngrams
  import opened Corpus
  import opened DeltaCodec
  import opened HitIterators
  import P = Postings

  /** Posting lists as the searcher has them: compressed for contents, decoded for file names. */
  datatype PostingTable = Blobs(blobs: map<Ngram, seq<byte>>) | Lists(lists: map<Ngram, seq<u32>>) {

    function List(ng: Ngram): seq<u32>
      requires Lists?
    {
      if ng in lists then lists[ng] else []
    }

    /** ngramFrequency: the size of the list, in bytes or in entries. */
    function Frequency(ng: Ngram): nat {
      match this
      case Blobs(blobs) => |P.Blob(blobs, ng)|
      case Lists(_) => |List(ng)|
    }

    ghost predicate Holds(docs: Docs) {
      match this
      case Blobs(blobs) => forall ng: Ngram :: P.Blob(blobs, ng) == Deltas(CorpusHits(docs, ng), 0)
      case Lists(_) => forall ng: Ngram :: List(ng) == CorpusHits(docs, ng)
    }
  }

  lemma FrequencyZero(t: PostingTable, docs: Docs, ng: Ngram)
    requires t.Holds(docs)
    ensures t.Frequency(ng) == 0 <==> CorpusHits(docs, ng) == []
  {
    DeltasNonempty(CorpusHits(docs, ng), 0);
    assert Deltas([], 0) == [];
  }

  /** Posting lists below 2^32 - 1 are in the form the iterators want. */
  ghost function PostingsOf(docs: Docs, ng: Ngram): (list: seq<u32>)
    requires |Flat(docs)| < MaxU32
    ensures list == CorpusHits(docs, ng) && IsPostingList(list)
  {
    CorpusHitsExact(docs, ng);
    assert forall i :: 0 <= i < |CorpusHits(docs, ng)| ==> CorpusHits(docs, ng)[i] in CorpusHits(docs, ng);
    CorpusHits(docs, ng)
  }

  /** The positions of any of the trigrams. */
  ghost function HitsOfAny(docs: Docs, variants: seq<Ngram>): set<int> {
    set i, p | 0 <= i < |variants| && p in CorpusHits(docs, variants[i]) :: p
  }

  lemma HitsOfMore(docs: Docs, variants: seq<Ngram>, i: nat)
    requires i < |variants|
    ensures HitsOfAny(docs, variants[..i + 1]) == HitsOfAny(docs, variants[..i]) + Elements(CorpusHits(docs, variants[i]))
  {
    var a, b := variants[..i], variants[..i + 1];
    assert b == a + [variants[i]];
    forall p ensures p in HitsOfAny(docs, b) <==> p in HitsOfAny(docs, a) + Elements(CorpusHits(docs, variants[i])) {
      if p in HitsOfAny(docs, a) {
        var j :| 0 <= j < |a| && p in CorpusHits(docs, a[j]);
        assert b[j] == a[j];
      }
      if p in CorpusHits(docs, variants[i]) {
        assert b[i] == variants[i];
      }
      if p in HitsOfAny(docs, b) {
        var j :| 0 <= j < |b| && p in CorpusHits(docs, b[j]);
        assert j < i ==> a[j] == b[j];
      }
    }
  }

  /** One list iterator, when the trigram occurs at all. */
  method NewListIterator(t: PostingTable, ng: Ngram, ghost docs: Docs) returns (it: Option<ListIterator>)
    requires t.Holds(docs) && |Flat(docs)| < MaxU32
    ensures it.None? <==> CorpusHits(docs, ng) == []
    ensures it.Some? ==> fresh(it.value.Object()) && it.value.Valid() && it.value.Hits() == Elements(CorpusHits(docs, ng))
  {
    hide CorpusHits, Deltas;
    FrequencyZero(t, docs, ng);
    if t.Frequency(ng) == 0 {
      return None;
    }
    ghost var list := PostingsOf(docs, ng);
    match t
    case Blobs(blobs) =>
      var c := new CompressedPostingIterator(P.Blob(blobs, ng), list);
      it := Some(Compressed(c));
    case Lists(_) =>
      var m := new InMemoryIterator(t.List(ng));
      it := Some(Memory(m));
  }

  ghost predicate Distinct(iters: seq<ListIterator>) {
    forall i, j :: 0 <= i < j < |iters| ==> iters[i].Object() != iters[j].Object()
  }

  /** trigramHitIterator for the given case variants: exactly the places where one of them stands. */
  method NewTrigramIterator(t: PostingTable, variants: seq<Ngram>, ghost docs: Docs) returns (it: TrigramIterator)
    requires t.Holds(docs) && |Flat(docs)| < MaxU32
    ensures fresh(it.Objects()) && it.Valid()
    ensures it.Hits() == HitsOfAny(docs, variants)
  {
    hide CorpusHits, PostingTable.Holds, ListIterator.Valid, ListIterator.Hits, HitsOfAny;
    var iters: seq<ListIterator> := [];
    ghost var sets: seq<set<int>> := [];
    NoHits(docs, variants);
    for i := 0 to |variants|
      invariant Distinct(iters) && |sets| == |iters|
      invariant forall j :: 0 <= j < |iters| ==> fresh(iters[j].Object()) && iters[j].Valid() && iters[j].Hits() == sets[j]
      invariant Union(sets) == HitsOfAny(docs, variants[..i])
    {
      HitsOfMore(docs, variants, i);
      UnionMore(sets, Elements(CorpusHits(docs, variants[i])));
      var li := NewListIterator(t, variants[i], docs);
      if li.Some? {
        iters := iters + [li.value];
        sets := sets + [Elements(CorpusHits(docs, variants[i]))];
      } else {
        assert Elements([]) == {};
      }
    }
    assert variants[..|variants|] == variants;
    if |iters| == 1 {
      UnionOne(sets);
      return Single(iters[0]);
    }
    var m := new MergingIterator(iters);
    assert m.HitSets() == sets;
    return Merged(m);
  }

  lemma NoHits(docs: Docs, variants: seq<Ngram>)
    ensures HitsOfAny(docs, variants[..0]) == {} && Union([]) == {}
  {
  }

  lemma UnionMore(sets: seq<set<int>>, s: set<int>)
    ensures Union(sets + [s]) == Union(sets) + s
  {
    var more := sets + [s];
    assert more[|sets|] == s && forall j :: 0 <= j < |sets| ==> more[j] == sets[j];
    forall p ensures p in Union(more) <==> p in Union(sets) + s {
      if p in Union(sets) {
        var j :| 0 <= j < |sets| && p in sets[j];
        assert p in more[j];
      }
    }
  }

  lemma UnionOne(sets: seq<set<int>>)
    requires |sets| == 1
    ensures Union(sets) == sets[0]
  {
    forall p ensures p in Union(sets) <==> p in sets[0] {
    }
  }
}
