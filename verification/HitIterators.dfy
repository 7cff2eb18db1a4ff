/**
 * The hit iterators of hititer.go. An iterator stands for the set of corpus
 * positions it may still produce. `next(limit)` is allowed to lag: it may keep
 * positions at or below the limit, but it never drops one above it, and it
 * always drops the least one when that is at or below the limit.
 */
module HitIterators {
  import opened Machine
  import opened DeltaCodec
  import opened Ngrams
  import Varint

  /** `m` is the least element of `hits`. */
  ghost predicate Least(m: int, hits: set<int>) {
    m in hits && forall p :: p in hits ==> m <= p
  }

  /** What `first` returns: the least hit, MaxU32 for none. */
  ghost predicate IsFirst(r: int, hits: set<int>) {
    if hits == {} then r == MaxU32 else r < MaxU32 && Least(r, hits)
  }

  /** Nothing appears, and nothing above the limit is lost. */
  ghost predicate Kept(before: set<int>, after: set<int>, limit: int) {
    && after <= before
    && (forall p :: p in before && p > limit ==> p in after)
  }

  /** What `next(limit)` may do to the hits: keep what it must, and make progress. */
  ghost predicate Skipped(before: set<int>, after: set<int>, limit: int) {
    && Kept(before, after, limit)
    && (forall p :: p in after && p <= limit ==> !Least(p, before))
    && (limit == MaxU32 ==> after == {})
  }

  /** The shape of every posting list: increasing and below MaxU32, which means "no hit". */
  ghost predicate IsPostingList(s: seq<int>) {
    Increasing(s) && forall i :: 0 <= i < |s| ==> 0 <= s[i] < MaxU32
  }

  // ----- posting lists in memory -----

  /** Dropping every posting at or below the limit. */
  function DropThrough(s: seq<u32>, limit: u32): seq<u32> {
    if s == [] || s[0] > limit then s else DropThrough(s[1..], limit)
  }

  class InMemoryIterator {
    var postings: seq<u32>

    ghost predicate Valid()
      reads this
    {
      IsPostingList(postings)
    }

    ghost function Hits(): set<int>
      reads this
    {
      Elements(postings)
    }

    constructor (list: seq<u32>)
      requires IsPostingList(list)
      ensures Valid() && postings == list
    {
      postings := list;
    }

    function First(): (r: u32)
      requires Valid()
      reads this
      ensures IsFirst(r, Hits())
    {
      assert |postings| > 0 ==> Least(postings[0], Hits());
      if |postings| > 0 then postings[0] else MaxU32
    }

    method Next(limit: u32)
      requires Valid()
      modifies this
      ensures Valid()
      ensures postings == if limit == MaxU32 then [] else DropThrough(old(postings), limit)
      ensures Skipped(old(Hits()), Hits(), limit)
    {
      if limit == MaxU32 {
        postings := [];
      }
      ghost var all := postings;
      ghost var k := 0;
      while |postings| > 0 && postings[0] <= limit
        invariant 0 <= k <= |all| && postings == all[k..]
        invariant forall i :: 0 <= i < k ==> all[i] <= limit
        invariant DropThrough(all, limit) == DropThrough(postings, limit)
        decreases |postings|
      {
        postings := postings[1..];
        k := k + 1;
      }
      SuffixSkips(old(postings), postings, limit);
    }
  }

  /** A suffix that holds everything above the limit, and not a first posting below it, is a legal skip. */
  lemma SuffixSkips(before: seq<int>, after: seq<int>, limit: int)
    requires IsPostingList(before)
    requires |after| <= |before| && after == before[|before| - |after|..]
    requires forall i :: 0 <= i < |before| - |after| ==> before[i] <= limit
    requires before != [] && before[0] <= limit ==> |after| < |before|
    requires limit == MaxU32 ==> after == []
    ensures Skipped(Elements(before), Elements(after), limit)
    ensures IsPostingList(after)
  {
    var k := |before| - |after|;
    forall p | p in Elements(before) && p > limit ensures p in Elements(after) {
      var i :| 0 <= i < |before| && before[i] == p;
      assert after[i - k] == p;
    }
    forall p | p in Elements(after) && p <= limit ensures !Least(p, Elements(before)) {
      var i :| 0 <= i < |after| && after[i] == p;
      assert before[k + i] == p && before[0] in Elements(before);
    }
  }

  // ----- compressed posting lists -----

  /** Dropping through the limit, except that the very last posting stays. */
  function DropButLast(s: seq<u32>, limit: u32): seq<u32> {
    if |s| <= 1 || s[0] > limit then s else DropButLast(s[1..], limit)
  }

  /** What compressedPostingIterator.next leaves: it lags by one at the end of the list. */
  function LaggingDrop(s: seq<u32>, limit: u32): seq<u32> {
    if limit == MaxU32 then []
    else if |s| == 1 && s[0] <= limit then []
    else DropButLast(s, limit)
  }

  lemma {:induction false} DropButLastLags(s: seq<u32>, limit: u32)
    requires Increasing(s) && s != []
    ensures DropButLast(s, limit) != []
    ensures DropButLast(s, limit)[0] <= limit <==> s[|s| - 1] <= limit
  {
    if |s| > 1 && s[0] <= limit {
      DropButLastLags(s[1..], limit);
    }
  }

  /**
   * The interface promises that first is past the limit after next (hititer.go:27-29). The compressed iterator breaks
   * the promise exactly if it had two postings left or more and all of them are at or below the limit.
   */
  lemma LagsIff(s: seq<u32>, limit: u32)
    requires Increasing(s)
    ensures LaggingDrop(s, limit) != [] && LaggingDrop(s, limit)[0] <= limit <==>
            |s| >= 2 && limit < MaxU32 && s[|s| - 1] <= limit
  {
    if s != [] {
      DropButLastLags(s, limit);
    }
  }

  /** With the postings 1 and 2, next(5) leaves first at 2. */
  lemma LagExample()
    ensures LaggingDrop([1, 2], 5) == [2]
  {
    assert [1, 2][1..] == [2];
    assert DropButLast([2], 5) == [2];
  }

  class CompressedPostingIterator {
    var blob: seq<byte>
    var first: u32

    /** The postings not yet passed: the current one and those in the blob. */
    ghost var left: seq<u32>

    ghost predicate Valid()
      reads this
    {
      && IsPostingList(left)
      && (left == [] ==> first == MaxU32 && blob == [])
      && (left != [] ==> first == left[0] && blob == Deltas(left[1..], first))
    }

    ghost function Hits(): set<int>
      reads this
    {
      Elements(left)
    }

    /** newCompressedPostingIterator on the bytes of a posting list. */
    constructor (b: seq<byte>, ghost list: seq<u32>)
      requires list != [] && IsPostingList(list) && b == Deltas(list, 0)
      ensures Valid() && left == list
    {
      Varint.ReadBack(Wrap(list[0]), Deltas(list[1..], list[0]));
      var parsed := Varint.Get(b);
      first := Wrap(parsed.value);
      blob := b[parsed.size..];
      left := list;
    }

    function First(): (r: u32)
      requires Valid()
      reads this
      ensures IsFirst(r, Hits())
    {
      assert left != [] ==> Least(left[0], Hits());
      first
    }

    method Next(limit: u32)
      requires Valid()
      modifies this
      ensures Valid()
      ensures left == LaggingDrop(old(left), limit)
      ensures Skipped(old(Hits()), Hits(), limit)
    {
      hide Varint.Put;
      if left != [] { DeltasNonempty(left[1..], first); }
      if limit == MaxU32 {
        blob, first, left := [], MaxU32, [];
        SuffixSkips(old(left), left, limit);
        return;
      }
      if first <= limit && |blob| == 0 {
        first, left := MaxU32, [];
        SuffixSkips(old(left), left, limit);
        return;
      }
      ghost var all := left;
      ghost var k := 0;
      while first <= limit && |blob| > 0
        invariant 0 <= k <= |all| && left == all[k..] && Valid()
        invariant forall i :: 0 <= i < k ==> all[i] <= limit
        invariant all != [] ==> left != []
        invariant first <= limit && |blob| > 0 && k == 0 ==> |all| >= 2
        invariant DropButLast(all, limit) == DropButLast(left, limit)
        decreases |blob|
      {
        Advance();
        k := k + 1;
      }
      assert left == DropButLast(left, limit);
      SuffixSkips(old(left), left, limit);
    }

    /** One varint: the loop body at hititer.go:218-220. */
    method Advance()
      requires Valid() && left != [] && blob != []
      modifies this
      ensures Valid() && left == old(left)[1..] && left != []
      ensures |blob| < |old(blob)|
    {
      ghost var tail: seq<u32> := left[1..];
      assert tail != [] by { assert Deltas([], first) == []; }
      var parsed := Varint.Get(blob);
      Varint.ReadBack(Wrap(tail[0] - first), Deltas(tail[1..], tail[0]));
      WrapInverse(tail[0], first);
      first := Wrap(first + parsed.value);
      blob := blob[parsed.size..];
      left := tail;
    }
  }

  // ----- merging -----

  /** The posting list of one trigram, in memory (file names) or compressed (contents). */
  datatype ListIterator = Memory(mem: InMemoryIterator) | Compressed(comp: CompressedPostingIterator) {

    ghost function Object(): object {
      match this case Memory(m) => m case Compressed(c) => c
    }

    ghost predicate Valid()
      reads Object()
    {
      match this case Memory(m) => m.Valid() case Compressed(c) => c.Valid()
    }

    ghost function Hits(): set<int>
      reads Object()
    {
      match this case Memory(m) => m.Hits() case Compressed(c) => c.Hits()
    }

    function First(): (r: u32)
      requires Valid()
      reads Object()
      ensures IsFirst(r, Hits())
    {
      match this case Memory(m) => m.First() case Compressed(c) => c.First()
    }

    method Next(limit: u32)
      requires Valid()
      modifies Object()
      ensures Valid()
      ensures Skipped(old(Hits()), Hits(), limit)
    {
      match this
      case Memory(m) => m.Next(limit);
      case Compressed(c) => c.Next(limit);
    }
  }

  ghost function Union(sets: seq<set<int>>): set<int> {
    set j, p | 0 <= j < |sets| && p in sets[j] :: p
  }

  lemma UnionSkipped(before: seq<set<int>>, after: seq<set<int>>, limit: int)
    requires |before| == |after|
    requires forall j :: 0 <= j < |before| ==> Skipped(before[j], after[j], limit)
    ensures Skipped(Union(before), Union(after), limit)
  {
    forall p | p in Union(after) ensures p in Union(before) {
      var j :| 0 <= j < |after| && p in after[j];
      assert p in before[j];
    }
    forall p | p in Union(before) && p > limit ensures p in Union(after) {
      var j :| 0 <= j < |before| && p in before[j];
      assert p in after[j];
    }
    forall p | p in Union(after) && p <= limit ensures !Least(p, Union(before)) {
      var j :| 0 <= j < |after| && p in after[j];
      assert p in before[j] && !Least(p, before[j]);
      var q :| q in before[j] && q < p;
      assert q in Union(before);
    }
  }

  /** The minimum of the firsts is the first of the union. */
  lemma UnionFirst(sets: seq<set<int>>, r: int)
    requires r <= MaxU32
    requires r < MaxU32 ==> exists j :: 0 <= j < |sets| && r in sets[j]
    requires forall j, p :: 0 <= j < |sets| && p in sets[j] ==> r <= p && r < MaxU32
    ensures IsFirst(r, Union(sets))
  {
    if r == MaxU32 {
      assert forall p :: p !in Union(sets);
    } else {
      assert r in Union(sets);
    }
  }

  /** mergingIterator: the lists of all case variants of a trigram, read as one. */
  class MergingIterator {
    const iters: seq<ListIterator>

    ghost function Objects(): set<object> {
      set j | 0 <= j < |iters| :: iters[j].Object()
    }

    ghost predicate Valid()
      reads Objects()
    {
      && (forall j :: 0 <= j < |iters| ==> iters[j].Valid())
      && (forall i, j :: 0 <= i < j < |iters| ==> iters[i].Object() != iters[j].Object())
    }

    ghost function HitSets(): (sets: seq<set<int>>)
      reads Objects()
      ensures |sets| == |iters|
      ensures forall j :: 0 <= j < |iters| ==> sets[j] == iters[j].Hits()
    {
      seq(|iters|, j requires 0 <= j < |iters| reads Objects() => iters[j].Hits())
    }

    ghost function Hits(): set<int>
      reads Objects()
    {
      Union(HitSets())
    }

    constructor (iters: seq<ListIterator>)
      requires forall j :: 0 <= j < |iters| ==> iters[j].Valid()
      requires forall i, j :: 0 <= i < j < |iters| ==> iters[i].Object() != iters[j].Object()
      ensures Valid() && this.iters == iters
    {
      this.iters := iters;
    }

    method First() returns (r: u32)
      requires Valid()
      ensures IsFirst(r, Hits())
    {
      r := MaxU32;
      for j := 0 to |iters|
        invariant r < MaxU32 ==> exists i :: 0 <= i < j && r in HitSets()[i]
        invariant forall i, p :: 0 <= i < j && p in HitSets()[i] ==> r <= p && r < MaxU32
      {
        var f := iters[j].First();
        assert IsFirst(f, HitSets()[j]);
        if f < r {
          r := f;
        }
      }
      UnionFirst(HitSets(), r);
    }

    method Next(limit: u32)
      requires Valid()
      modifies Objects()
      ensures Valid()
      ensures Skipped(old(Hits()), Hits(), limit)
    {
      hide Skipped, ListIterator.Valid, ListIterator.Hits;
      ghost var before := HitSets();
      for j := 0 to |iters|
        invariant Valid()
        invariant forall i :: 0 <= i < j ==> Skipped(before[i], iters[i].Hits(), limit)
        invariant forall i :: j <= i < |iters| ==> before[i] == iters[i].Hits()
      {
        iters[j].Next(limit);
      }
      UnionSkipped(before, HitSets(), limit);
    }
  }

  /** What trigramHitIterator returns: one list, or the merge of any other number of them. */
  datatype TrigramIterator = Single(list: ListIterator) | Merged(merge: MergingIterator) {

    ghost function Objects(): set<object> {
      match this case Single(l) => {l.Object()} case Merged(m) => m.Objects()
    }

    ghost predicate Valid()
      reads Objects()
    {
      match this case Single(l) => l.Valid() case Merged(m) => m.Valid()
    }

    ghost function Hits(): set<int>
      reads Objects()
    {
      match this case Single(l) => l.Hits() case Merged(m) => m.Hits()
    }

    method First() returns (r: u32)
      requires Valid()
      ensures IsFirst(r, Hits())
    {
      match this
      case Single(l) => r := l.First();
      case Merged(m) => r := m.First();
    }

    method Next(limit: u32)
      requires Valid()
      modifies Objects()
      ensures Valid()
      ensures Skipped(old(Hits()), Hits(), limit)
    {
      match this
      case Single(l) => l.Next(limit);
      case Merged(m) => m.Next(limit);
    }
  }

  // ----- two trigrams at a distance -----

  /** The positions in `h1` with a partner in `h2` at the given distance. */
  ghost function AtDistance(h1: set<int>, h2: set<int>, distance: int): set<int> {
    set p | p in h1 && p + distance in h2
  }

  /** Sums of a position and the distance do not wrap around. */
  ghost predicate InRange(h1: set<int>, h2: set<int>, distance: int) {
    && (forall p :: p in h1 ==> 0 <= p && p + distance <= MaxU32)
    && (forall p :: p in h2 ==> 0 <= p < MaxU32)
  }

  /** Moving the left iterator up to the right one loses no pair and removes a hit. */
  lemma LeftCatchesUp(h1: set<int>, h1': set<int>, h2: set<int>, distance: int, p1: int, p2: int)
    requires IsFirst(p1, h1) && IsFirst(p2, h2) && p1 < MaxU32 && p2 < MaxU32 && p1 + distance < p2
    requires Skipped(h1, h1', p2 - distance - 1)
    ensures AtDistance(h1', h2, distance) == AtDistance(h1, h2, distance)
    ensures h1' < h1 && (InRange(h1, h2, distance) ==> InRange(h1', h2, distance))
  {
    assert Least(p1, h1) && p1 !in h1';
  }

  lemma RightCatchesUp(h1: set<int>, h2: set<int>, h2': set<int>, distance: int, p1: int, p2: int)
    requires IsFirst(p1, h1) && IsFirst(p2, h2) && p1 < MaxU32 && p2 < MaxU32 && p1 + distance > p2
    requires Skipped(h2, h2', p1 + distance - 1)
    ensures AtDistance(h1, h2', distance) == AtDistance(h1, h2, distance)
    ensures h2' < h2 && (InRange(h1, h2, distance) ==> InRange(h1, h2', distance))
  {
    assert Least(p2, h2) && p2 !in h2';
  }

  lemma FirstInRange(p: int, h1: set<int>, h2: set<int>, distance: int)
    requires IsFirst(p, h1) && p < MaxU32 && InRange(h1, h2, distance)
    ensures 0 <= p && p + distance <= MaxU32
  {
  }

  lemma RunsOut(h1: set<int>, h1': set<int>, h2: set<int>, distance: int, p1: int, p2: int)
    requires IsFirst(p1, h1) && IsFirst(p2, h2) && (p1 == MaxU32 || p2 == MaxU32)
    requires Skipped(h1, h1', MaxU32)
    ensures AtDistance(h1', h2, distance) == AtDistance(h1, h2, distance)
    ensures h1' <= h1 && Aligned(h1', h2, distance)
    ensures InRange(h1, h2, distance) ==> InRange(h1', h2, distance)
  {
  }

  lemma Meets(h1: set<int>, h2: set<int>, distance: int, p1: int, p2: int)
    requires IsFirst(p1, h1) && IsFirst(p2, h2) && p1 < MaxU32 && p2 < MaxU32 && p1 + distance == p2
    ensures Aligned(h1, h2, distance)
  {
    assert Least(p1, h1) && Least(p1 + distance, h2);
  }

  /** Moving both iterators past the limit, the right one by the distance more, skips pairs legally. */
  lemma PairsSkipped(h1: set<int>, h1': set<int>, h2: set<int>, h2': set<int>, distance: int, limit: int, limit2: int)
    requires distance >= 1 && 0 <= limit <= MaxU32
    requires Skipped(h1, h1', limit) && Skipped(h2, h2', limit2)
    requires limit2 == if limit + distance > MaxU32 then MaxU32 else limit + distance
    requires InRange(h1, h2, distance)
    ensures Kept(AtDistance(h1, h2, distance), AtDistance(h1', h2', distance), limit)
    ensures limit == MaxU32 ==> AtDistance(h1', h2', distance) == {}
    ensures Aligned(h1, h2, distance) ==> Skipped(AtDistance(h1, h2, distance), AtDistance(h1', h2', distance), limit)
  {
    if Aligned(h1, h2, distance) && h1 != {} {
      var p :| Least(p, h1) && Least(p + distance, h2);
      assert p in AtDistance(h1, h2, distance);
      assert forall q :: Least(q, AtDistance(h1, h2, distance)) ==> q == p;
    }
  }

  /** The first of an aligned left iterator is the first pair. */
  lemma AlignedFirst(h1: set<int>, h2: set<int>, distance: int, r: int)
    requires Aligned(h1, h2, distance) && IsFirst(r, h1)
    ensures IsFirst(r, AtDistance(h1, h2, distance))
  {
    if h1 != {} {
      var p :| Least(p, h1) && Least(p + distance, h2);
      assert p in AtDistance(h1, h2, distance);
    }
  }

  lemma SkippedInRange(h1: set<int>, h1': set<int>, h2: set<int>, h2': set<int>, distance: int, limit: int, limit2: int)
    requires InRange(h1, h2, distance) && Skipped(h1, h1', limit) && Skipped(h2, h2', limit2)
    ensures InRange(h1', h2', distance)
  {
  }

  /** Aligned iterators: the left one stands on the first pair, or has run out. */
  ghost predicate Aligned(h1: set<int>, h2: set<int>, distance: int) {
    h1 == {} || exists p :: Least(p, h1) && Least(p + distance, h2)
  }

  class DistanceHitIterator {
    const distance: u32
    const i1: TrigramIterator
    const i2: TrigramIterator
    var started: bool

    ghost function Objects(): set<object> {
      {this} + i1.Objects() + i2.Objects()
    }

    /** Everything but the alignment that `started` promises. */
    ghost predicate Sound()
      reads Objects()
    {
      && this !in i1.Objects() && this !in i2.Objects() && i1.Objects() !! i2.Objects()
      && i1.Valid() && i2.Valid()
      && 1 <= distance
      && InRange(i1.Hits(), i2.Hits(), distance)
    }

    ghost predicate Valid()
      reads Objects()
    {
      Sound() && (started ==> Aligned(i1.Hits(), i2.Hits(), distance))
    }

    ghost function Hits(): set<int>
      reads Objects()
    {
      AtDistance(i1.Hits(), i2.Hits(), distance)
    }

    constructor (i1: TrigramIterator, i2: TrigramIterator, distance: u32)
      requires i1.Valid() && i2.Valid() && i1.Objects() !! i2.Objects()
      requires 1 <= distance
      requires InRange(i1.Hits(), i2.Hits(), distance)
      ensures Valid() && this.i1 == i1 && this.i2 == i2 && this.distance == distance
    {
      this.i1, this.i2, this.distance := i1, i2, distance;
      started := false;
    }

    method NextLeft(limit: u32)
      requires Sound()
      modifies i1.Objects()
      ensures i1.Valid() && i2.Valid()
      ensures i2.Hits() == old(i2.Hits()) && Skipped(old(i1.Hits()), i1.Hits(), limit)
    {
      hide TrigramIterator.Valid, TrigramIterator.Hits, Skipped, InRange;
      i1.Next(limit);
    }

    method NextRight(limit: u32)
      requires Sound()
      modifies i2.Objects()
      ensures i1.Valid() && i2.Valid()
      ensures i1.Hits() == old(i1.Hits()) && Skipped(old(i2.Hits()), i2.Hits(), limit)
    {
      hide TrigramIterator.Valid, TrigramIterator.Hits, Skipped, InRange;
      i2.Next(limit);
    }

    method Firsts() returns (p1: u32, p2: u32)
      requires Sound()
      ensures IsFirst(p1, i1.Hits()) && IsFirst(p2, i2.Hits())
    {
      hide TrigramIterator.Valid, TrigramIterator.Hits, IsFirst, InRange;
      p1 := i1.First();
      p2 := i2.First();
    }

    /** One turn of findNext; either it is done or one side lost a hit. */
    method Turn() returns (done: bool)
      requires Sound()
      modifies i1.Objects(), i2.Objects()
      ensures Sound() && Hits() == old(Hits())
      ensures done ==> Aligned(i1.Hits(), i2.Hits(), distance)
      ensures done ==> i1.Hits() <= old(i1.Hits()) && i2.Hits() == old(i2.Hits())
      ensures !done ==> i1.Hits() < old(i1.Hits()) || (i1.Hits() == old(i1.Hits()) && i2.Hits() < old(i2.Hits()))
    {
      hide TrigramIterator.Valid, TrigramIterator.Hits, Skipped, IsFirst, Aligned, AtDistance, InRange;
      var p1, p2 := Firsts();
      ghost var h1, h2 := i1.Hits(), i2.Hits();
      if p1 == MaxU32 || p2 == MaxU32 {
        NextLeft(MaxU32);
        RunsOut(h1, i1.Hits(), h2, distance, p1, p2);
        return true;
      }
      FirstInRange(p1, h1, h2, distance);
      if p1 + distance < p2 {
        NextLeft(p2 - distance - 1);
        LeftCatchesUp(h1, i1.Hits(), h2, distance, p1, p2);
        return false;
      } else if p1 + distance > p2 {
        NextRight(p1 + distance - 1);
        RightCatchesUp(h1, h2, i2.Hits(), distance, p1, p2);
        return false;
      } else {
        Meets(h1, h2, distance, p1, p2);
        return true;
      }
    }

    /** findNext: it ends because every turn removes a hit on one side, however the lists lag. */
    method FindNext()
      requires Sound()
      modifies i1.Objects(), i2.Objects()
      ensures Sound() && Hits() == old(Hits())
      ensures Aligned(i1.Hits(), i2.Hits(), distance)
    {
      hide TrigramIterator.Valid, TrigramIterator.Hits, Aligned, AtDistance, InRange;
      var done := false;
      while !done
        invariant Sound() && Hits() == old(Hits())
        invariant done ==> Aligned(i1.Hits(), i2.Hits(), distance)
        decreases i1.Hits(), i2.Hits(), !done
      {
        done := Turn();
      }
    }

    method First() returns (r: u32)
      requires Valid()
      modifies Objects()
      ensures Valid() && started && Hits() == old(Hits()) && IsFirst(r, Hits())
    {
      hide TrigramIterator.Valid, TrigramIterator.Hits, Aligned, AtDistance, InRange, IsFirst;
      if !started {
        FindNext();
        ghost var h1, h2 := i1.Hits(), i2.Hits();
        started := true;
        assert i1.Valid() && i1.Hits() == h1 && i2.Valid() && i2.Hits() == h2;
      }
      r := i1.First();
      AlignedFirst(i1.Hits(), i2.Hits(), distance, r);
    }

    method Next(limit: u32)
      requires Valid()
      modifies Objects()
      ensures Valid() && started == old(started)
      ensures Kept(old(Hits()), Hits(), limit)
      ensures started ==> Skipped(old(Hits()), Hits(), limit)
    {
      hide TrigramIterator.Valid, TrigramIterator.Hits, Skipped, Kept, Aligned, AtDistance, InRange;
      ghost var h1, h2 := i1.Hits(), i2.Hits();
      i1.Next(limit);
      assert i2.Valid() && i2.Hits() == h2;
      var l2 := if limit + distance > MaxU32 then MaxU32 else limit + distance;
      ghost var h1' := i1.Hits();
      i2.Next(l2);
      assert i1.Valid() && i1.Hits() == h1';
      PairsSkipped(h1, h1', h2, i2.Hits(), distance, limit, l2);
      SkippedInRange(h1, h1', h2, i2.Hits(), distance, limit, l2);
      FindNext();
    }
  }

  /** The iterator behind a substring search: one trigram, or two at a distance. */
  datatype HitIterator = OneTrigram(one: TrigramIterator) | TwoTrigrams(two: DistanceHitIterator) {

    ghost function Objects(): set<object> {
      match this case OneTrigram(t) => t.Objects() case TwoTrigrams(d) => d.Objects()
    }

    ghost predicate Valid()
      reads Objects()
    {
      match this case OneTrigram(t) => t.Valid() case TwoTrigrams(d) => d.Valid()
    }

    ghost function Hits(): set<int>
      reads Objects()
    {
      match this case OneTrigram(t) => t.Hits() case TwoTrigrams(d) => d.Hits()
    }

    /** `first` has been called, so that `next` makes progress. */
    ghost predicate Started()
      reads Objects()
    {
      OneTrigram? || two.started
    }

    method First() returns (r: u32)
      requires Valid()
      modifies Objects()
      ensures Valid() && Started() && Hits() == old(Hits()) && IsFirst(r, Hits())
    {
      hide TrigramIterator.Valid, TrigramIterator.Hits, DistanceHitIterator.Valid, DistanceHitIterator.Hits;
      match this
      case OneTrigram(t) => r := t.First();
      case TwoTrigrams(d) => r := d.First();
    }

    method Next(limit: u32)
      requires Valid()
      modifies Objects()
      ensures Valid() && Started() == old(Started())
      ensures Kept(old(Hits()), Hits(), limit)
      ensures Started() ==> Skipped(old(Hits()), Hits(), limit)
    {
      hide TrigramIterator.Valid, TrigramIterator.Hits, DistanceHitIterator.Valid, DistanceHitIterator.Hits, Kept;
      match this
      case OneTrigram(t) =>
        ghost var before := t.Hits();
        t.Next(limit);
        SkippedIsKept(before, t.Hits(), limit);
      case TwoTrigrams(d) => d.Next(limit);
    }
  }

  lemma SkippedIsKept(before: set<int>, after: set<int>, limit: int)
    requires Skipped(before, after, limit)
    ensures Kept(before, after, limit)
  {
  }
}
