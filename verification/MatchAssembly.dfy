/** Gathering the candidates of a document (gatherMatches, eval.go:286-348). */
module MatchAssembly {
  import opened Machine
  import opened Sorting
  import opened SubstringMatching

  // ----- merging -----

  function End(c: Candidate): int {
    c.byteOffset + c.byteMatchSz
  }

  /** Offsets and ends are 32 bit numbers, as they are for matches in a file. */
  ghost predicate EndsFit(cs: seq<Candidate>) {
    forall i :: 0 <= i < |cs| ==> End(cs[i]) <= MaxU32
  }

  /**
   * Candidate `c` covers half point `h`: byte offset `x` is half point `2 * x`, and the
   * odd ones lie inside bytes. An empty match covers the place where it stands.
   */
  predicate Covers(c: Candidate, h: int) {
    2 * c.byteOffset <= h <= 2 * End(c)
  }

  predicate CoveredBy(cs: seq<Candidate>, h: int) {
    exists i :: 0 <= i < |cs| && Covers(cs[i], h)
  }

  ghost predicate SameCover(a: seq<Candidate>, b: seq<Candidate>) {
    forall h :: CoveredBy(a, h) <==> CoveredBy(b, h)
  }

  /** In document order, and not even touching. */
  ghost predicate Separated(cs: seq<Candidate>) {
    forall i, j :: 0 <= i < j < |cs| ==> End(cs[i]) < cs[j].byteOffset
  }

  ghost predicate Sorted(cs: seq<Candidate>) {
    forall i, j :: 0 <= i < j < |cs| ==> cs[i].byteOffset <= cs[j].byteOffset
  }

  /** The intervals alone. */
  function Spans(cs: seq<Candidate>): (r: seq<(int, int)>)
    ensures |r| == |cs| && forall i :: 0 <= i < |cs| ==> r[i] == (cs[i].byteOffset as int, End(cs[i]))
  {
    seq(|cs|, i requires 0 <= i < |cs| => (cs[i].byteOffset as int, End(cs[i])))
  }

  /** Separated lists are determined by what they cover. */
  lemma {:induction false} CoverDetermines(a: seq<Candidate>, b: seq<Candidate>)
    requires Separated(a) && Separated(b) && SameCover(a, b)
    ensures Spans(a) == Spans(b)
    decreases |a|
  {
    hide SameCover, Separated, Spans;
    EmptyTogether(a, b);
    if a == [] {
      assert Spans(a) == Spans(b);
    } else {
      FirstSame(a, b);
      RestSame(a, b);
      CoverDetermines(a[1..], b[1..]);
      assert a == [a[0]] + a[1..] && b == [b[0]] + b[1..];
      SpansCons(a[0], a[1..]);
      SpansCons(b[0], b[1..]);
    }
  }

  lemma EmptyTogether(a: seq<Candidate>, b: seq<Candidate>)
    requires SameCover(a, b)
    ensures a == [] <==> b == []
  {
    if a != [] {
      assert Covers(a[0], 2 * a[0].byteOffset) && CoveredBy(a, 2 * a[0].byteOffset);
    }
    if b != [] {
      assert Covers(b[0], 2 * b[0].byteOffset) && CoveredBy(b, 2 * b[0].byteOffset);
    }
  }

  lemma SpansCons(c: Candidate, cs: seq<Candidate>)
    ensures Spans([c] + cs) == [(c.byteOffset as int, End(c))] + Spans(cs)
  {
  }

  lemma FirstSame(a: seq<Candidate>, b: seq<Candidate>)
    requires Separated(a) && Separated(b) && SameCover(a, b) && a != [] && b != []
    ensures a[0].byteOffset == b[0].byteOffset && End(a[0]) == End(b[0])
  {
    StartsNotAfter(a, b);
    StartsNotAfter(b, a);
    EndsNotAfter(a, b);
    EndsNotAfter(b, a);
  }

  /** The first point covered is the start of the first interval. */
  lemma StartsNotAfter(a: seq<Candidate>, b: seq<Candidate>)
    requires Separated(a) && Separated(b) && SameCover(a, b) && a != [] && b != []
    ensures b[0].byteOffset <= a[0].byteOffset
  {
    var h := 2 * a[0].byteOffset;
    assert Covers(a[0], h) && CoveredBy(a, h) && CoveredBy(b, h);
    var k :| 0 <= k < |b| && Covers(b[k], h);
    assert k > 0 ==> End(b[0]) < b[k].byteOffset;
  }

  /** The half point after an end is not covered. */
  lemma EndsNotAfter(a: seq<Candidate>, b: seq<Candidate>)
    requires Separated(a) && Separated(b) && SameCover(a, b) && a != [] && b != []
    requires a[0].byteOffset == b[0].byteOffset
    ensures End(b[0]) <= End(a[0])
  {
    var h := 2 * End(a[0]) + 1;
    forall k | 0 <= k < |a| ensures !Covers(a[k], h) {
      assert k > 0 ==> End(a[0]) < a[k].byteOffset;
    }
    assert !CoveredBy(a, h) && !CoveredBy(b, h);
    assert !Covers(b[0], h);
  }

  lemma RestSame(a: seq<Candidate>, b: seq<Candidate>)
    requires Separated(a) && Separated(b) && SameCover(a, b) && a != [] && b != []
    requires a[0].byteOffset == b[0].byteOffset && End(a[0]) == End(b[0])
    ensures SameCover(a[1..], b[1..]) && Separated(a[1..]) && Separated(b[1..])
  {
    forall h ensures CoveredBy(a[1..], h) <==> CoveredBy(b[1..], h) {
      RestCover(a, h);
      RestCover(b, h);
      assert CoveredBy(a, h) <==> CoveredBy(b, h);
    }
  }

  lemma RestCover(a: seq<Candidate>, h: int)
    requires Separated(a) && a != []
    ensures CoveredBy(a[1..], h) <==> CoveredBy(a, h) && h > 2 * End(a[0])
  {
    if CoveredBy(a[1..], h) {
      var k :| 0 <= k < |a[1..]| && Covers(a[1..][k], h);
      assert a[k + 1] == a[1..][k];
    }
    if CoveredBy(a, h) && h > 2 * End(a[0]) {
      var k :| 0 <= k < |a| && Covers(a[k], h);
      assert a[1..][k - 1] == a[k];
    }
  }

  // ----- gathering -----

  predicate AnyContent(cs: seq<Candidate>) {
    exists i :: 0 <= i < |cs| && !cs[i].fileName
  }

  /** Content matches drive out matches in the name. */
  function Kept(cs: seq<Candidate>, content: bool): (r: seq<Candidate>)
    ensures forall c :: c in r <==> c in cs && (content ==> !c.fileName)
  {
    if cs == [] then []
    else Kept(cs[..|cs| - 1], content) + if content && cs[|cs| - 1].fileName then [] else [cs[|cs| - 1]]
  }

  /** sortByOffsetSlice. */
  method SortByOffset(cs: seq<Candidate>) returns (r: seq<Candidate>)
    ensures Sorted(r) && multiset(r) == multiset(cs)
  {
    var key := (c: Candidate) => c.byteOffset as int;
    r := SortBy(cs, key);
    forall i, j | 0 <= i < j < |r| ensures r[i].byteOffset <= r[j].byteOffset {
      assert key(r[i]) <= key(r[j]);
    }
  }

  /** The merging loop: what has been read so far is what the result covers. */
  ghost predicate Merged(res: seq<Candidate>, done: seq<Candidate>, kind: bool) {
    && Separated(res) && EndsFit(res) && SameCover(res, done) && (res == [] <==> done == [])
    && (res != [] ==> res[|res| - 1].byteOffset <= done[|done| - 1].byteOffset)
    && forall i :: 0 <= i < |res| ==> res[i].fileName == kind
  }

  lemma CoverAppend(cs: seq<Candidate>, c: Candidate, h: int)
    ensures CoveredBy(cs + [c], h) <==> CoveredBy(cs, h) || Covers(c, h)
  {
    var all := cs + [c];
    if CoveredBy(cs, h) {
      var i :| 0 <= i < |cs| && Covers(cs[i], h);
      assert all[i] == cs[i];
    }
    if Covers(c, h) {
      assert all[|cs|] == c;
    }
  }

  /** A candidate that starts after the end of the last interval starts a new one. */
  lemma MergeNew(res: seq<Candidate>, done: seq<Candidate>, c: Candidate, kind: bool)
    requires Merged(res, done, kind) && c.fileName == kind && End(c) <= MaxU32
    requires res != [] ==> End(res[|res| - 1]) < c.byteOffset
    ensures Merged(res + [c], done + [c], kind)
  {
    forall h ensures CoveredBy(res + [c], h) <==> CoveredBy(done + [c], h) {
      CoverAppend(res, c, h);
      CoverAppend(done, c, h);
    }
    assert forall i :: 0 <= i < |res| - 1 ==> End(res[i]) < res[|res| - 1].byteOffset;
  }

  /** One that touches the last interval extends it, if it ends later. */
  lemma MergeInto(res: seq<Candidate>, done: seq<Candidate>, c: Candidate, last: Candidate, kind: bool)
    requires Merged(res, done, kind) && c.fileName == kind && End(c) <= MaxU32 && res != []
    requires res[|res| - 1].byteOffset <= c.byteOffset <= End(res[|res| - 1])
    requires last.fileName == kind && last.byteOffset == res[|res| - 1].byteOffset
    requires End(last) == if End(c) > End(res[|res| - 1]) then End(c) else End(res[|res| - 1])
    ensures Merged(res[..|res| - 1] + [last], done + [c], kind)
  {
    var n, was := |res| - 1, res[|res| - 1];
    assert res == res[..n] + [was];
    forall h ensures CoveredBy(res[..n] + [last], h) <==> CoveredBy(done + [c], h) {
      CoverAppend(res[..n], last, h);
      CoverAppend(res[..n], was, h);
      CoverAppend(done, c, h);
      assert CoveredBy(res, h) <==> CoveredBy(done, h);
    }
  }

  lemma MergeNothing(kind: bool)
    ensures Merged([], [], kind)
  {
  }

  /** lastEnd and end, in 32 bits. */
  function EndOf(c: Candidate): u32 {
    Wrap(c.byteOffset + c.byteMatchSz)
  }

  lemma SortedFacts(cands: seq<Candidate>, content: bool, kept: seq<Candidate>, sorted: seq<Candidate>)
    requires EndsFit(cands) && content == AnyContent(cands)
    requires kept == Kept(cands, content) && multiset(sorted) == multiset(kept)
    ensures forall i :: 0 <= i < |sorted| ==> sorted[i].fileName == !content && End(sorted[i]) <= MaxU32
    ensures sorted == [] <==> cands == []
    ensures SameCover(sorted, kept)
  {
    forall c ensures c in sorted <==> c in kept {
      assert c in multiset(sorted) <==> c in multiset(kept);
    }
    forall i | 0 <= i < |sorted| ensures sorted[i].fileName == !content && End(sorted[i]) <= MaxU32 {
      assert sorted[i] in kept && sorted[i] in cands;
    }
    if cands != [] {
      var c :| c in cands && (content ==> !c.fileName);
      assert c in sorted;
    }
    CoverOfMembers(sorted, kept);
    CoverOfMembers(kept, sorted);
  }

  lemma CoverOfMembers(a: seq<Candidate>, b: seq<Candidate>)
    requires forall c :: c in a ==> c in b
    ensures forall h :: CoveredBy(a, h) ==> CoveredBy(b, h)
  {
    forall h | CoveredBy(a, h) ensures CoveredBy(b, h) {
      var i :| 0 <= i < |a| && Covers(a[i], h);
      assert a[i] in b;
    }
  }

  /** A candidate as the leaves of the match tree and the result share it: merging changes its size. */
  class Shared {
    var c: Candidate

    constructor (c: Candidate)
      ensures this.c == c
    {
      this.c := c;
    }
  }

  ghost function Values(cells: seq<Shared>): (vs: seq<Candidate>)
    reads cells
    ensures |vs| == |cells| && forall i :: 0 <= i < |cells| ==> vs[i] == cells[i].c
  {
    if cells == [] then [] else Values(cells[..|cells| - 1]) + [cells[|cells| - 1].c]
  }

  ghost predicate AllDistinct(cells: seq<Shared>) {
    forall i, j :: 0 <= i < j < |cells| ==> cells[i] != cells[j]
  }

  /** The results are some of the first `k` candidates, in their order. */
  ghost predicate Picked(res: seq<Shared>, cells: seq<Shared>, at: seq<nat>, k: nat) {
    && |at| == |res| && Increasing(at) && k <= |cells|
    && forall j :: 0 <= j < |res| ==> at[j] < k && res[j] == cells[at[j]]
  }

  lemma PickedLast(res: seq<Shared>, cells: seq<Shared>, at: seq<nat>, k: nat)
    requires Picked(res, cells, at, k) && AllDistinct(cells) && res != []
    ensures forall j :: 0 <= j < |res| - 1 ==> res[j] != res[|res| - 1]
    ensures forall i :: k <= i < |cells| ==> cells[i] != res[|res| - 1]
    ensures res[|res| - 1] in cells
  {
    assert forall j :: 0 <= j < |res| - 1 ==> at[j] < at[|res| - 1];
  }

  /** Candidates that are left alone or are results cover together what they covered before. */
  lemma AllStillCover(cells: seq<Candidate>, res: seq<Candidate>, before: seq<Candidate>)
    requires SameCover(res, before) && |cells| == |before|
    requires forall i :: 0 <= i < |cells| ==> cells[i] in res || cells[i] == before[i]
    requires forall c :: c in res ==> c in cells
    ensures SameCover(cells, before)
  {
    forall h ensures CoveredBy(cells, h) <==> CoveredBy(before, h) {
      if CoveredBy(cells, h) {
        var i :| 0 <= i < |cells| && Covers(cells[i], h);
        if cells[i] in res {
          var j :| 0 <= j < |res| && res[j] == cells[i];
          assert CoveredBy(res, h);
        }
      }
      if CoveredBy(before, h) {
        assert CoveredBy(res, h);
        var j :| 0 <= j < |res| && Covers(res[j], h);
        assert res[j] in cells;
      }
    }
  }

  /** The first `k` candidates have been merged into `res`; no object but these has changed. */
  ghost predicate Merging(cells: seq<Shared>, res: seq<Shared>, at: seq<nat>, sorted: seq<Candidate>, k: nat, kind: bool)
    reads cells, res
  {
    && Picked(res, cells, at, k) && |sorted| == |cells| && Merged(Values(res), sorted[..k], kind)
    && (forall i :: k <= i < |cells| ==> cells[i].c == sorted[i])
    && (forall i :: 0 <= i < k ==> cells[i] in res || cells[i].c == sorted[i])
  }

  /** A candidate that touches the last interval: the object of that interval grows. */
  method Extend(cells: seq<Shared>, res: seq<Shared>, i: nat, ghost at: seq<nat>, ghost sorted: seq<Candidate>, ghost kind: bool)
    requires i < |cells| && AllDistinct(cells) && Merging(cells, res, at, sorted, i, kind) && Sorted(sorted) && res != []
    requires sorted[i].fileName == kind && End(sorted[i]) <= MaxU32 && EndOf(res[|res| - 1].c) >= sorted[i].byteOffset
    modifies cells
    ensures Merging(cells, res, at, sorted, i + 1, kind)
  {
    hide SameCover, Separated, Values, Merged, AllDistinct;
    var c, last := cells[i].c, res[|res| - 1];
    ghost var done, values := sorted[..i], Values(res);
    assert sorted[..i + 1] == done + [c];
    MergedFacts(values, done, kind);
    PickedLast(res, cells, at, i);
    assert last.c == values[|values| - 1];
    var grown := if EndOf(c) > EndOf(last.c) then last.c.(byteMatchSz := EndOf(c) - last.c.byteOffset) else last.c;
    MergeInto(values, done, c, grown, kind);
    last.c := grown;
    assert Values(res) == values[..|values| - 1] + [grown];
  }

  /** One that does not starts an interval of its own. */
  lemma Another(cells: seq<Shared>, res: seq<Shared>, i: nat, at: seq<nat>, sorted: seq<Candidate>, kind: bool)
    requires i < |cells| && Merging(cells, res, at, sorted, i, kind) && sorted[i].fileName == kind && End(sorted[i]) <= MaxU32
    requires res != [] ==> EndOf(res[|res| - 1].c) < sorted[i].byteOffset
    ensures Merging(cells, res + [cells[i]], at + [i], sorted, i + 1, kind)
  {
    hide SameCover, Separated, Values, Merged;
    var done, values := sorted[..i], Values(res);
    assert sorted[..i + 1] == done + [sorted[i]];
    MergedFacts(values, done, kind);
    MergeNew(values, done, sorted[i], kind);
    assert Values(res + [cells[i]]) == values + [sorted[i]];
  }

  /**
   * Merging candidates of one kind in document order (eval.go:325-345). The first of a run takes the size of the whole
   * run, in the object itself; no other candidate changes, and all of them together cover what they did.
   */
  method Merge(cells: seq<Shared>, kind: bool) returns (res: seq<Shared>)
    requires AllDistinct(cells) && Sorted(Values(cells))
    requires forall i :: 0 <= i < |cells| ==> cells[i].c.fileName == kind && End(cells[i].c) <= MaxU32
    modifies cells
    ensures Merged(Values(res), old(Values(cells)), kind)
    ensures forall o :: o in res ==> o in cells
    ensures forall i :: 0 <= i < |cells| ==> cells[i] in res || cells[i].c == old(cells[i].c)
    ensures SameCover(Values(cells), old(Values(cells)))
  {
    hide SameCover, Separated, Values, Merged, AllDistinct, Sorted;
    ghost var sorted := Values(cells);
    assert forall i :: 0 <= i < |cells| ==> sorted[i] == cells[i].c;
    res := [];
    ghost var at: seq<nat> := [];
    MergeNothing(kind);
    assert Values(res) == [] && sorted[..0] == [];
    for i := 0 to |cells|
      invariant Merging(cells, res, at, sorted, i, kind)
      invariant i > 0 ==> res != []
    {
      if i > 0 && EndOf(res[|res| - 1].c) >= cells[i].c.byteOffset {
        Extend(cells, res, i, at, sorted, kind);
      } else {
        Another(cells, res, i, at, sorted, kind);
        res := res + [cells[i]];
        at := at + [i];
      }
    }
    assert sorted[..|cells|] == sorted;
    MergedFacts(Values(res), sorted, kind);
    assert forall o :: o in res ==> o.c in Values(res);
    assert forall o :: o in cells ==> o.c in Values(cells);
    AllStillCover(Values(cells), Values(res), sorted);
  }

  lemma MergedFacts(res: seq<Candidate>, done: seq<Candidate>, kind: bool)
    requires Merged(res, done, kind)
    ensures SameCover(res, done) && (res == [] <==> done == []) && EndsFit(res)
    ensures res != [] ==> res[|res| - 1].byteOffset <= done[|done| - 1].byteOffset
    ensures forall i :: 0 <= i < |res| ==> res[i].fileName == kind
  {
  }

  /** Merging what has been merged in place gives the same intervals again. */
  lemma MergeAgain(before: seq<Candidate>, after: seq<Candidate>, res: seq<Candidate>, res': seq<Candidate>, kind: bool)
    requires SameCover(after, before) && Merged(res, before, kind) && Merged(res', after, kind)
    ensures Spans(res) == Spans(res')
  {
    hide CoveredBy;
    CoverDetermines(res, res');
  }

  /** Name matches go if there are content matches (eval.go:309-323). */
  method KeepKind(cands: seq<Candidate>) returns (kept: seq<Candidate>, content: bool)
    ensures content == AnyContent(cands) && kept == Kept(cands, content)
  {
    content := false;
    for i := 0 to |cands|
      invariant !content && forall j :: 0 <= j < i ==> cands[j].fileName
    {
      if !cands[i].fileName {
        content := true;
        break;
      }
    }
    kept := [];
    for i := 0 to |cands|
      invariant kept == Kept(cands[..i], content)
    {
      assert cands[..i + 1][..i] == cands[..i];
      if !content || !cands[i].fileName {
        kept := kept + [cands[i]];
      }
    }
    assert cands[..|cands|] == cands;
  }

  /** One object for each candidate. */
  method Share(cands: seq<Candidate>) returns (cells: seq<Shared>)
    ensures AllDistinct(cells) && fresh(cells) && Values(cells) == cands
  {
    hide Values;
    cells := [];
    for i := 0 to |cands|
      invariant |cells| == i && AllDistinct(cells) && fresh(cells)
      invariant forall k :: 0 <= k < i ==> cells[k].c == cands[k]
    {
      var cell := new Shared(cands[i]);
      cells := cells + [cell];
    }
    assert Values(cells) == cands;
  }

  /** The candidates of the results. */
  method Read(cells: seq<Shared>) returns (cs: seq<Candidate>)
    ensures cs == Values(cells)
  {
    hide Values;
    cs := [];
    for i := 0 to |cells|
      invariant |cs| == i && forall k :: 0 <= k < i ==> cs[k] == cells[k].c
    {
      cs := cs + [cells[i].c];
    }
    assert cs == Values(cells);
  }

  /** gatherMatches, after the candidates of the visited leaves have been put together. */
  method GatherMatches(cands: seq<Candidate>) returns (res: seq<Candidate>)
    requires EndsFit(cands)
    ensures Separated(res) && EndsFit(res)
    ensures SameCover(res, Kept(cands, AnyContent(cands)))
    ensures forall i :: 0 <= i < |res| ==> res[i].fileName == !AnyContent(cands)
    ensures res == [] <==> cands == []
  {
    hide Kept, AnyContent, CoveredBy, Separated, Values;
    var kept, content := KeepKind(cands);
    var sorted := SortByOffset(kept);
    SortedFacts(cands, content, kept, sorted);
    var cells := Share(sorted);
    assert forall i :: 0 <= i < |cells| ==> cells[i].c == sorted[i];
    var merged := Merge(cells, !content);
    res := Read(merged);
  }

  /** Whatever order the sort leaves equal offsets in, the intervals come out the same. */
  lemma TiesDoNotMatter(cands: seq<Candidate>, res: seq<Candidate>, res': seq<Candidate>)
    requires Separated(res) && SameCover(res, Kept(cands, AnyContent(cands)))
    requires Separated(res') && SameCover(res', Kept(cands, AnyContent(cands)))
    ensures Spans(res) == Spans(res')
  {
    hide CoveredBy;
    CoverDetermines(res, res');
  }
}
