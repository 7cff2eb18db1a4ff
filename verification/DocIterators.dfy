/** Document iterators of matchiter.go: from corpus positions to candidates in one document. */
module DocIterators {
  import opened Machine
  import opened HitIterators

  /**
   * nextFileIndex: galloping search for the least index at or after `f` whose end
   * lies beyond the offset. The step never exceeds f + 1, so f + d stays below 2^32.
   */
  method NextFileIndex(offset: u32, f: u32, ends: seq<u32>) returns (j: u32)
    requires Nondecreasing(ends) && |ends| <= 0x8000_0000 && f <= |ends|
    ensures f <= j <= |ends|
    ensures forall i :: f <= i < j ==> ends[i] <= offset
    ensures j < |ends| ==> ends[j] > offset
  {
    j := f;
    var d: u32 := 1;
    while j < |ends| && ends[j] <= offset
      invariant f <= j <= |ends|
      invariant forall i :: f <= i < j ==> ends[i] <= offset
      invariant 1 <= d <= j + 1
      decreases |ends| - j, d
    {
      var next: u32 := j + d;
      if next < |ends| && ends[next] <= offset {
        j := next;
        d := d * 2;
      } else if d > 1 {
        d := d / 4 + 1;
      } else {
        j := j + 1;
      }
    }
  }

  /** The first position of document `d`, from the table of document ends. */
  function StartOf(ends: seq<u32>, d: nat): u32
    requires d <= |ends|
  {
    if d == 0 then 0 else ends[d - 1]
  }

  /** Hit `p`, found `leftPad` runes into the pattern, puts the whole pattern between `start` and `end`. */
  predicate Fits(start: int, end: int, leftPad: int, rightPad: int, p: int) {
    start + leftPad <= p && p + rightPad <= end
  }

  /** The hits put the pattern somewhere in document `d`. */
  ghost predicate Hosts(hits: set<int>, ends: seq<u32>, leftPad: int, rightPad: int, d: nat) {
    d < |ends| && exists p :: p in hits && Fits(StartOf(ends, d), ends[d], leftPad, rightPad, p)
  }

  /** One of the hits lies in document `d`. */
  ghost predicate HitsDoc(hits: set<int>, ends: seq<u32>, d: nat) {
    d < |ends| && exists p :: p in hits && StartOf(ends, d) <= p < ends[d]
  }

  /** The hits are in document `f` or later, and later than the cursor. */
  ghost predicate Ahead(hits: set<int>, ends: seq<u32>, f: nat, cursor: int)
    requires f <= |ends| && cursor < |ends|
  {
    forall p :: p in hits ==> p >= StartOf(ends, f) && (f == cursor ==> p >= ends[cursor])
  }

  /** The document that holds the first hit is after the cursor. */
  lemma LandsOnHit(hits: set<int>, ends: seq<u32>, f: nat, cursor: int, first: int, j: nat)
    requires Nondecreasing(ends) && -1 <= cursor <= f <= j <= |ends| && cursor < |ends|
    requires Ahead(hits, ends, f, cursor) && IsFirst(first, hits) && (forall d :: 0 <= d < |ends| ==> ends[d] <= MaxU32)
    requires (forall i :: f <= i < j ==> ends[i] <= first) && (j < |ends| ==> ends[j] > first)
    ensures cursor < j && Ahead(hits, ends, j, cursor) && (j < |ends| ==> HitsDoc(hits, ends, j))
  {
    if j < |ends| {
      assert first in hits;
      assert j > f ==> StartOf(ends, j) <= first;
    }
  }

  /** The rune offsets, counted from `start`, at which the hits put the pattern. */
  ghost predicate AreCandidates(cands: seq<int>, hits: set<int>, start: int, end: int, leftPad: int, rightPad: int) {
    && Increasing(cands)
    && forall r: int :: r in cands <==>
         r + start + leftPad in hits && Fits(start, end, leftPad, rightPad, r + start + leftPad)
  }

  /** The same offsets as a set. */
  ghost function Offsets(hits: set<int>, start: int, end: int, leftPad: int, rightPad: int): set<int> {
    set p | p in hits && Fits(start, end, leftPad, rightPad, p) :: p - start - leftPad
  }

  lemma CandidatesAreOffsets(cands: seq<int>, hits: set<int>, start: int, end: int, leftPad: int, rightPad: int)
    requires AreCandidates(cands, hits, start, end, leftPad, rightPad)
    ensures Increasing(cands) && Elements(cands) == Offsets(hits, start, end, leftPad, rightPad)
  {
    forall r ensures r in Elements(cands) <==> r in Offsets(hits, start, end, leftPad, rightPad) {
      assert r in cands <==> r + start + leftPad in hits && Fits(start, end, leftPad, rightPad, r + start + leftPad);
      if r in cands {
        assert r == (r + start + leftPad) - start - leftPad;
      }
    }
  }

  /** Of `all` hits, those in `left` are still to come and the others have been turned into candidates. */
  ghost predicate Collected(cands: seq<int>, all: set<int>, left: set<int>, start: int, end: int, leftPad: int, rightPad: int) {
    && Increasing(cands)
    && (forall r: int :: r in cands ==>
          && r + start + leftPad in all && r + start + leftPad !in left
          && Fits(start, end, leftPad, rightPad, r + start + leftPad))
    && (forall p :: p in all && p !in left && Fits(start, end, leftPad, rightPad, p) ==> p - start - leftPad in cands)
    && (forall r, p :: r in cands && p in left ==> r + start + leftPad < p)
  }

  lemma CollectedNone(all: set<int>, left: set<int>, start: int, end: int, leftPad: int, rightPad: int)
    requires Complete(left, all, start + leftPad)
    ensures Collected([], all, left, start, end, leftPad, rightPad)
  {
  }

  lemma CollectedOne(cands: seq<int>, all: set<int>, left: set<int>, start: int, end: int, leftPad: int, rightPad: int,
                     p: int)
    requires Collected(cands, all, left, start, end, leftPad, rightPad)
    requires Least(p, left) && p in all
    ensures if Fits(start, end, leftPad, rightPad, p)
            then Collected(cands + [p - start - leftPad], all, left - {p}, start, end, leftPad, rightPad)
            else Collected(cands, all, left - {p}, start, end, leftPad, rightPad)
  {
    if Fits(start, end, leftPad, rightPad, p) {
      var more := cands + [p - start - leftPad];
      assert forall i :: 0 <= i < |cands| ==> cands[i] in cands;
      assert p - start - leftPad in more && forall r :: r in more <==> r in cands || r == p - start - leftPad;
    }
  }

  lemma CollectedAll(cands: seq<int>, all: set<int>, left: set<int>, start: int, end: int, leftPad: int, rightPad: int)
    requires Collected(cands, all, left, start, end, leftPad, rightPad)
    requires 1 <= rightPad && forall p :: p in left ==> p >= end
    ensures AreCandidates(cands, all, start, end, leftPad, rightPad)
  {
  }

  /** Every hit at or above `from` is still there. */
  ghost predicate Complete(left: set<int>, all: set<int>, from: int) {
    left <= all && forall p :: p in all && p >= from ==> p in left
  }

  lemma CompleteKept(left: set<int>, left': set<int>, all: set<int>, from: int, limit: int, from': int)
    requires Complete(left, all, from) && Kept(left, left', limit)
    requires from <= from' && limit < from'
    ensures Complete(left', all, from')
  {
  }

  /** Skipping through the first hit removes exactly that hit. */
  lemma SkipFirst(p: int, hits: set<int>, hits': set<int>)
    requires IsFirst(p, hits) && p < MaxU32 && Skipped(hits, hits', p)
    ensures Least(p, hits) && hits' == hits - {p}
  {
    assert forall q :: q in hits && q != p ==> q > p;
    assert forall q :: q in hits' <==> q in hits - {p};
  }

  /** Documents before the one holding the first hit have no use for any hit. */
  lemma NothingBefore(ends: seq<u32>, all: set<int>, left: set<int>, from: int, leftPad: int, rightPad: int,
                      first: int, d: nat)
    requires d < |ends| && 1 <= rightPad
    requires Complete(left, all, from) && from <= StartOf(ends, d) + leftPad
    requires IsFirst(first, left) && ends[d] <= first
    ensures !Hosts(all, ends, leftPad, rightPad, d)
  {
    assert forall p :: p in all && p >= from ==> p in left && p >= first;
  }

  lemma NothingPassed(ends: seq<u32>, all: set<int>, left: set<int>, cursor: int, f: nat, j: nat,
                      leftPad: int, rightPad: int, first: int)
    requires Nondecreasing(ends) && -1 <= cursor <= f <= j <= |ends| && cursor < |ends| && 0 <= leftPad && 1 <= rightPad
    requires Complete(left, all, if cursor < 0 then 0 else ends[cursor] + leftPad) && IsFirst(first, left)
    requires forall d :: cursor < d < f ==> !Hosts(all, ends, leftPad, rightPad, d)
    requires forall d :: f <= d < j ==> ends[d] <= first
    ensures forall d :: cursor < d < j ==> !Hosts(all, ends, leftPad, rightPad, d)
  {
    forall d | cursor < d < j && f <= d ensures !Hosts(all, ends, leftPad, rightPad, d) {
      if cursor >= 0 { StartsIncrease(ends, cursor, d); }
      NothingBefore(ends, all, left, if cursor < 0 then 0 else ends[cursor] + leftPad, leftPad, rightPad, first, d);
    }
  }

  lemma HitsDocMore(left: set<int>, all: set<int>, ends: seq<u32>, d: nat, from: int)
    requires HitsDoc(left, ends, d) && Complete(left, all, from)
    ensures HitsDoc(all, ends, d)
  {
  }

  lemma StartsIncrease(ends: seq<u32>, a: nat, b: nat)
    requires Nondecreasing(ends) && a < b <= |ends|
    ensures StartOf(ends, a) <= StartOf(ends, b) && ends[a] <= StartOf(ends, b)
  {
  }

  /** ngramDocIterator: candidates of one pattern, document by document in increasing order. */
  class NgramDocIterator {
    const leftPad: u32
    const rightPad: u32
    const iter: HitIterator
    const ends: seq<u32>
    var fileIdx: u32

    /** Every position the iterator had to begin with. */
    ghost const all: set<int>
    /** The document last prepared, -1 before the first. */
    ghost var cursor: int

    ghost function Objects(): set<object> {
      {this} + iter.Objects()
    }

    ghost predicate Shape()
      reads Objects()
    {
      && this !in iter.Objects()
      && iter.Valid()
      && Nondecreasing(ends) && |ends| <= 0x8000_0000
      && 1 <= rightPad
      && (forall d :: 0 <= d < |ends| ==> ends[d] + leftPad + rightPad <= MaxU32)
      && -1 <= cursor < |ends|
      && cursor <= fileIdx <= |ends|
    }

    /** Hits for the documents after the cursor are all there, and the documents below fileIdx have none. */
    ghost predicate Valid()
      reads Objects()
    {
      && Shape()
      && Complete(iter.Hits(), all, if cursor < 0 then 0 else ends[cursor] + leftPad)
      && (forall d :: cursor < d < fileIdx ==> !Hosts(all, ends, leftPad, rightPad, d))
      && Ahead(iter.Hits(), ends, fileIdx, cursor)
    }

    /** The hits of the document just prepared are there too. */
    ghost predicate Prepared()
      reads Objects()
    {
      && Shape()
      && 0 <= cursor == fileIdx
      && Complete(iter.Hits(), all, StartOf(ends, cursor) + leftPad)
    }

    constructor (leftPad: u32, rightPad: u32, iter: HitIterator, ends: seq<u32>)
      requires iter.Valid() && (forall p :: p in iter.Hits() ==> 0 <= p)
      requires Nondecreasing(ends) && |ends| <= 0x8000_0000
      requires 1 <= rightPad
      requires forall d :: 0 <= d < |ends| ==> ends[d] + leftPad + rightPad <= MaxU32
      ensures Valid() && cursor == -1 && all == iter.Hits()
      ensures this.leftPad == leftPad && this.rightPad == rightPad && this.iter == iter && this.ends == ends
    {
      this.leftPad, this.rightPad, this.iter, this.ends := leftPad, rightPad, iter, ends;
      fileIdx := 0;
      all := iter.Hits();
      cursor := -1;
    }

    /** nextDoc: the next document with a hit; no document passed over could hold the pattern. */
    method NextDoc() returns (doc: u32)
      requires Valid()
      modifies Objects()
      ensures Valid() && cursor == old(cursor)
      ensures forall d :: cursor < d < doc && d < |ends| ==> !Hosts(all, ends, leftPad, rightPad, d)
      ensures cursor < doc && (doc < MaxU32 ==> HitsDoc(all, ends, doc))
    {
      hide HitIterator.Valid, HitIterator.Hits, HitIterator.Started, Complete, IsFirst, Hosts, HitsDoc, Ahead;
      var first := iter.First();
      var j := NextFileIndex(first, fileIdx, ends);
      ghost var left := iter.Hits();
      NothingPassed(ends, all, left, cursor, fileIdx, j, leftPad, rightPad, first);
      LandsOnHit(left, ends, fileIdx, cursor, first, j);
      if j < |ends| {
        HitsDocMore(left, all, ends, j, if cursor < 0 then 0 else ends[cursor] + leftPad);
      }
      fileIdx := j;
      assert iter.Valid() && iter.Hits() == left;
      doc := if j >= |ends| then MaxU32 else j;
    }

    method Prepare(doc: u32)
      requires Valid() && cursor < doc < |ends|
      modifies Objects()
      ensures Prepared() && cursor == doc
    {
      hide HitIterator.Valid, HitIterator.Hits, HitIterator.Started, Complete, Kept, Skipped, Hosts;
      var start: u32 := StartOf(ends, doc);
      ghost var from := if cursor < 0 then 0 else ends[cursor] + leftPad;
      if cursor >= 0 { StartsIncrease(ends, cursor, doc); }
      ghost var left := iter.Hits();
      if start > 0 {
        iter.Next(start + leftPad - 1);
        CompleteKept(left, iter.Hits(), all, from, start + leftPad - 1, start + leftPad);
      } else {
        CompleteKept'(left, all, from, start + leftPad);
      }
      ghost var left' := iter.Hits();
      fileIdx := doc;
      cursor := doc;
      assert iter.Valid() && iter.Hits() == left';
    }

    /** candidates: exactly the offsets at which the hits put the pattern inside the prepared document. */
    method Candidates() returns (cands: seq<u32>)
      requires Prepared()
      modifies Objects()
      ensures Valid() && cursor == old(cursor)
      ensures AreCandidates(cands, all, StartOf(ends, cursor), ends[cursor], leftPad, rightPad)
    {
      hide HitIterator.Valid, HitIterator.Hits, Complete, Kept, Skipped, Hosts, Collected, IsFirst, Least, AreCandidates;
      var start: u32, end: u32 := StartOf(ends, fileIdx), ends[fileIdx];
      cands := [];
      CollectedNone(all, iter.Hits(), start, end, leftPad, rightPad);
      CompleteKept'(iter.Hits(), all, start + leftPad, end + leftPad);
      while true
        invariant Shape() && cursor == old(cursor) && fileIdx == cursor
        invariant Complete(iter.Hits(), all, end + leftPad)
        invariant Collected(cands, all, iter.Hits(), start, end, leftPad, rightPad)
        decreases iter.Hits()
      {
        ghost var left := iter.Hits();
        var p := iter.First();
        if p == MaxU32 || p >= end {
          RestBeyond(p, left, end);
          assert Ahead(left, ends, fileIdx, cursor);
          CollectedAll(cands, all, left, start, end, leftPad, rightPad);
          break;
        }
        iter.Next(p);
        SkipFirst(p, left, iter.Hits());
        HitRemoved(p, left, all, end + leftPad);
        CollectedOne(cands, all, left, start, end, leftPad, rightPad, p);
        if p < leftPad + start || p + rightPad > end {
          continue;
        }
        cands := cands + [p - start - leftPad];
      }
    }
  }

  lemma RestBeyond(p: int, left: set<int>, end: int)
    requires IsFirst(p, left) && p >= end
    ensures forall q :: q in left ==> q >= end
  {
  }

  lemma HitRemoved(p: int, left: set<int>, all: set<int>, from: int)
    requires Complete(left, all, from) && p in left && p < from
    ensures Complete(left - {p}, all, from) && p in all && left - {p} < left
  {
  }

  lemma CompleteKept'(left: set<int>, all: set<int>, from: int, from': int)
    requires Complete(left, all, from) && from <= from'
    ensures Complete(left, all, from')
  {
  }

  /** The match iterator of a substring: nothing for a trigram that never occurs, else by its trigrams. */
  datatype PlainIterator = Nothing | ByTrigram(it: NgramDocIterator) {

    ghost function Objects(): set<object> {
      match this case Nothing => {} case ByTrigram(it) => it.Objects()
    }

    /** The documents up to `cursor` are done with. */
    ghost predicate Ready(cursor: int)
      reads Objects()
    {
      match this case Nothing => true case ByTrigram(it) => it.Valid() && it.cursor == cursor
    }

    ghost predicate Prepared(doc: int)
      reads Objects()
    {
      match this case Nothing => true case ByTrigram(it) => it.Prepared() && it.cursor == doc
    }

    /** The candidates of document `d`: a fixed set, whatever the iterator has done so far. */
    ghost function Offers(d: nat): set<int> {
      match this
      case Nothing => {}
      case ByTrigram(it) =>
        if d < |it.ends| then Offsets(it.all, StartOf(it.ends, d), it.ends[d], it.leftPad, it.rightPad) else {}
    }

    ghost predicate Counts(ends: seq<u32>) {
      |ends| <= MaxU32 && (ByTrigram? ==> it.ends == ends)
    }

    /** Document `d` holds one of the hits. */
    ghost predicate Lands(d: nat) {
      ByTrigram? && HitsDoc(it.all, it.ends, d)
    }

    method NextDoc(ghost cursor: int, ghost ends: seq<u32>) returns (doc: u32)
      requires Ready(cursor) && Counts(ends) && cursor < |ends|
      modifies Objects()
      ensures Ready(cursor)
      ensures forall d :: cursor < d < doc && 0 <= d < |ends| ==> Offers(d) == {}
      ensures cursor < doc && (doc < MaxU32 ==> Lands(doc))
    {
      hide NgramDocIterator.Valid, HitsDoc;
      match this
      case Nothing => doc := MaxU32;
      case ByTrigram(it) =>
        doc := it.NextDoc();
        forall d | cursor < d < doc && 0 <= d < |ends| ensures Offers(d) == {} {
          assert !Hosts(it.all, it.ends, it.leftPad, it.rightPad, d);
        }
    }

    method Prepare(doc: u32, ghost cursor: int, ghost ends: seq<u32>)
      requires Ready(cursor) && Counts(ends) && cursor < doc < |ends|
      modifies Objects()
      ensures Prepared(doc)
    {
      hide NgramDocIterator.Valid, NgramDocIterator.Prepared;
      match this
      case Nothing =>
      case ByTrigram(it) => it.Prepare(doc);
    }

    method Candidates(ghost doc: nat, ghost ends: seq<u32>) returns (cands: seq<u32>)
      requires Prepared(doc) && Counts(ends) && doc < |ends|
      modifies Objects()
      ensures Ready(doc)
      ensures Increasing(cands) && Elements(cands) == Offers(doc)
    {
      hide NgramDocIterator.Valid, AreCandidates;
      match this
      case Nothing => cands := [];
      case ByTrigram(it) =>
        cands := it.Candidates();
        CandidatesAreOffsets(cands, it.all, StartOf(it.ends, doc), it.ends[doc], it.leftPad, it.rightPad);
    }
  }
}
