/** The leaves of the match tree (matchtree.go), behind one contract. */
module MatchAtoms {
  import opened Machine
  import opened SubstringMatching
  import opened SectionFilter

  const CostConst: nat := 0
  const CostMemory: nat := 1
  const CostContent: nat := 2
  const CostRegexp: nat := 3
  const CostMax: nat := CostRegexp

  /** bruteForceMatchTree: every document. */
  class BruteForceNode {
    var firstDone: bool
    var docID: u32

    ghost predicate Ready(cursor: int)
      reads this
    {
      if firstDone then cursor == docID < MaxU32 else cursor == -1
    }

    constructor ()
      ensures Ready(-1)
    {
      firstDone, docID := false, 0;
    }

    function NextDoc(ghost cursor: int): (doc: u32)
      requires Ready(cursor)
      reads this
      ensures doc == cursor + 1
    {
      if !firstDone then 0 else docID + 1
    }

    method Prepare(doc: u32)
      requires doc < MaxU32
      modifies this
      ensures Ready(doc)
    {
      docID := doc;
      firstDone := true;
    }
  }

  /** A match of a regular expression, in bytes. */
  datatype Span = Span(start: u32, end: u32)

  /** regexpMatchTree. The engine is a function from documents to the spans that FindAllIndex reports. */
  class RegexpNode {
    const fileName: bool
    const findAll: nat -> seq<Span>
    const all: BruteForceNode
    var found: seq<Candidate>

    ghost predicate Ready(cursor: int)
      reads this, all
    {
      all.Ready(cursor)
    }

    /** The meaning of the node: the expression matches somewhere. */
    predicate Sat(d: nat) {
      findAll(d) != []
    }

    constructor (fileName: bool, findAll: nat -> seq<Span>)
      ensures Ready(-1) && fresh(all) && this.fileName == fileName && this.findAll == findAll
    {
      this.fileName, this.findAll := fileName, findAll;
      found := [];
      all := new BruteForceNode();
    }

    method Prepare(doc: u32)
      requires doc < MaxU32
      modifies this, all
      ensures Ready(doc) && found == []
    {
      found := [];
      all.Prepare(doc);
    }

    /** The matches of the node in document `d`: what the engine reports. */
    ghost predicate Shows(d: nat, m: Match) {
      && m.fileName == fileName
      && exists i :: 0 <= i < |findAll(d)| && m.start == findAll(d)[i].start && m.size == Wrap(findAll(d)[i].end - findAll(d)[i].start)
    }

    /** One candidate for each span. */
    ghost predicate Settled(d: nat)
      reads this
    {
      |found| == |findAll(d)| && forall i :: 0 <= i < |found| ==>
        found[i] == Candidate(fileName, 0, findAll(d)[i].start, Wrap(findAll(d)[i].end - findAll(d)[i].start))
    }

    lemma SettledShows(d: nat, m: Match)
      requires Settled(d)
      ensures Shows(d, m) <==> HasMatch(found, m)
    {
      if Shows(d, m) {
        var i :| 0 <= i < |findAll(d)| && m.start == findAll(d)[i].start && m.size == Wrap(findAll(d)[i].end - findAll(d)[i].start);
        assert MatchOf(found[i]) == m;
      }
      if i :| 0 <= i < |found| && MatchOf(found[i]) == m {
        assert found[i] == Candidate(fileName, 0, findAll(d)[i].start, Wrap(findAll(d)[i].end - findAll(d)[i].start));
      }
    }

    method Matches(doc: u32, cost: nat) returns (v: bool, sure: bool)
      requires Ready(doc)
      modifies this`found
      ensures Ready(doc)
      ensures sure <==> cost >= CostRegexp
      ensures sure ==> v == Sat(doc) && Settled(doc)
    {
      if cost < CostRegexp {
        return false, false;
      }
      var idxs := findAll(doc);
      found := [];
      for i := 0 to |idxs|
        invariant |found| == i
        invariant forall j :: 0 <= j < i ==>
                    found[j] == Candidate(fileName, 0, idxs[j].start, Wrap(idxs[j].end - idxs[j].start))
      {
        found := found + [Candidate(fileName, 0, idxs[i].start, Wrap(idxs[i].end - idxs[i].start))];
      }
      return |found| > 0, true;
    }
  }

  /** docMatchTree: a list of documents in increasing order. */
  class DocNode {
    var docs: seq<u32>
    var current: seq<u32>

    /** All documents of the list. */
    ghost const listed: seq<u32>

    ghost predicate Ready(cursor: int)
      reads this
    {
      && Increasing(listed)
      && |docs| <= |listed| && docs == listed[|listed| - |docs|..]
      && (forall i :: 0 <= i < |listed| - |docs| ==> listed[i] <= cursor)
      && (forall i :: 0 <= i < |docs| ==> cursor < docs[i])
      && (current != [] <==> cursor in listed)
    }

    ghost predicate Sat(d: nat) {
      d in listed
    }

    constructor (docs: seq<u32>)
      requires Increasing(docs)
      ensures Ready(-1) && listed == docs
    {
      this.docs, current, listed := docs, [], docs;
    }

    function NextDoc(): (doc: u32)
      reads this
    {
      if |docs| == 0 then MaxU32 else docs[0]
    }

    lemma NextDocSkips(cursor: int)
      requires Ready(cursor)
      ensures forall d :: cursor < d < NextDoc() && 0 <= d < MaxU32 ==> !Sat(d)
      ensures docs != [] ==> cursor < NextDoc() && Sat(NextDoc())
    {
      if docs != [] {
        assert docs[0] == listed[|listed| - |docs|];
      }
      forall i | 0 <= i < |listed| ensures listed[i] <= cursor || listed[i] >= NextDoc() {
        var k := |listed| - |docs|;
        if i >= k {
          assert docs[i - k] == listed[i];
          assert docs[0] == listed[k];
        }
      }
    }

    /** The documents before `doc` are passed (matchtree.go:186-188). */
    method SkipBelow(doc: u32, ghost cursor: int) returns (ghost k: nat)
      requires Ready(cursor) && cursor < doc
      modifies this`docs
      ensures k <= |listed| && docs == listed[k..] && (docs != [] ==> docs[0] >= doc)
      ensures forall i :: 0 <= i < k ==> listed[i] < doc
    {
      hide Increasing;
      k := |listed| - |docs|;
      while |docs| > 0 && docs[0] < doc
        invariant k <= |listed| && |docs| == |listed| - k && docs == listed[k..]
        invariant forall i :: 0 <= i < k ==> listed[i] < doc
        decreases |docs|
      {
        docs := docs[1..];
        k := k + 1;
      }
    }

    method Prepare(doc: u32, ghost cursor: int)
      requires Ready(cursor) && cursor < doc
      modifies this
      ensures Ready(doc)
    {
      hide Increasing;
      ghost var k := SkipBelow(doc, cursor);
      var i := 0;
      while i < |docs| && docs[i] == doc
        invariant i <= |docs| && forall j :: 0 <= j < i ==> docs[j] == doc
      {
        i := i + 1;
      }
      TakeEqual(listed, k, docs, doc, i);
      current := docs[..i];
      docs := docs[i..];
    }
  }

  /** In an increasing list at most one entry equals `doc`, and it is the first one not below it. */
  lemma TakeEqual(listed: seq<u32>, k: nat, docs: seq<u32>, doc: u32, i: nat)
    requires Increasing(listed) && k <= |listed| && docs == listed[k..]
    requires forall j :: 0 <= j < k ==> listed[j] < doc
    requires |docs| > 0 ==> docs[0] >= doc
    requires i <= |docs| && (forall j :: 0 <= j < i ==> docs[j] == doc) && (i < |docs| ==> docs[i] != doc)
    ensures i == (if doc in listed then 1 else 0)
    ensures docs[i..] == listed[k + i..]
    ensures forall j :: 0 <= j < k + i ==> listed[j] <= doc
    ensures forall j :: k + i <= j < |listed| ==> doc < listed[j]
  {
    assert forall j :: k <= j < |listed| ==> listed[j] == docs[j - k];
    assert |docs| >= 2 ==> listed[k] < listed[k + 1];
    if i == 1 {
      assert listed[k] == doc;
    }
    if i == 0 && |docs| > 0 {
      assert listed[k] > doc;
    }
  }

  /** The masks share a branch. */
  predicate Overlaps(a: bv64, b: bv64) {
    a & b != 0
  }

  /** The branches of both masks. */
  function Join(a: bv64, b: bv64): bv64 {
    a | b
  }

  lemma OverlapsSwap(a: bv64, b: bv64)
    ensures Overlaps(a, b) == Overlaps(b, a)
  {
    assert a & b == b & a;
  }

  lemma OverlapsJoin(m: bv64, a: bv64, b: bv64)
    ensures Overlaps(m, Join(a, b)) <==> Overlaps(m, a) || Overlaps(m, b)
  {
    hide Overlaps;
    OverlapsOr(m, a, b);
  }

  lemma OverlapsOr(m: bv64, a: bv64, b: bv64)
    ensures Overlaps(m, a | b) <==> Overlaps(m, a) || Overlaps(m, b)
  {
    assert m & (a | b) == (m & a) | (m & b);
    OrIsZero(m & a, m & b);
  }

  lemma OrIsZero(x: bv64, y: bv64)
    ensures x | y == 0 <==> x == 0 && y == 0
  {
  }

  /** branchQueryMatchTree: documents that are in one of the branches of the mask. */
  class BranchNode {
    const fileMasks: seq<bv64>
    const mask: bv64
    const all: BruteForceNode

    ghost predicate Ready(cursor: int)
      reads this, all
    {
      all.Ready(cursor)
    }

    predicate Sat(d: nat) {
      d < |fileMasks| && Overlaps(fileMasks[d], mask)
    }

    constructor (fileMasks: seq<bv64>, mask: bv64)
      requires |fileMasks| < MaxU32
      ensures Ready(-1) && fresh(all) && this.fileMasks == fileMasks && this.mask == mask
    {
      this.fileMasks, this.mask := fileMasks, mask;
      all := new BruteForceNode();
    }

    method NextDoc(ghost cursor: int) returns (doc: u32)
      requires Ready(cursor) && |fileMasks| < MaxU32
      ensures forall d :: cursor < d < doc && 0 <= d < |fileMasks| ==> !Sat(d)
      ensures doc < MaxU32 ==> cursor < doc && Sat(doc)
    {
      hide Overlaps;
      var i := all.NextDoc(cursor);
      while i < |fileMasks|
        invariant cursor < i && forall d :: cursor < d < i && 0 <= d < |fileMasks| ==> !Sat(d)
      {
        OverlapsSwap(mask, fileMasks[i]);
        if Overlaps(mask, fileMasks[i]) {
          return i;
        }
        i := i + 1;
      }
      return MaxU32;
    }

    method Matches(ghost doc: nat) returns (v: bool)
      requires Ready(doc) && doc < |fileMasks|
      ensures v == Sat(doc)
    {
      v := Overlaps(fileMasks[all.docID], mask);
    }
  }

  /** A leaf of the match tree, of whichever kind. */
  datatype Atom =
    | Substring(sub: SubstringNode)
    | Regexp(re: RegexpNode)
    | Everything(all: BruteForceNode)
    | Listed(list: DocNode)
    | Branch(branch: BranchNode)
    | Never
  {
    ghost function Objects(): set<object> {
      match this
      case Substring(s) => s.Objects()
      case Regexp(r) => {r, r.all}
      case Everything(b) => {b}
      case Listed(l) => {l}
      case Branch(m) => {m, m.all}
      case Never => {}
    }

    /** The leaf is ready for documents after `cursor`, and speaks about document `cursor`. */
    ghost predicate Ready(cursor: int)
      reads Objects()
    {
      match this
      case Substring(s) => s.Valid() && s.cursor == cursor
      case Regexp(r) => r.Ready(cursor)
      case Everything(b) => b.Ready(cursor)
      case Listed(l) => l.Ready(cursor)
      case Branch(m) => m.Ready(cursor)
      case Never => true
    }

    /** The plain meaning of the leaf on document `d`. It never changes. */
    ghost predicate Sat(d: nat) {
      match this
      case Substring(s) => s.Sat(d)
      case Regexp(r) => r.Sat(d)
      case Everything(_) => true
      case Listed(l) => l.Sat(d)
      case Branch(m) => m.Sat(d)
      case Never => false
    }

    /** The matches that the leaf holds are those of document `d`. */
    ghost predicate Settled(d: nat)
      reads Objects()
    {
      match this
      case Substring(s) => s.Settled(d)
      case Regexp(r) => r.Settled(d)
      case _ => true
    }

    /** The matches of the leaf in document `d`. They never change. */
    ghost predicate Shows(d: nat, m: Match) {
      match this
      case Substring(s) => s.Shows(d, m)
      case Regexp(r) => r.Shows(d, m)
      case _ => false
    }

    /** The candidates that the leaf holds (eval.go:300-307). */
    function Held(): seq<Candidate>
      reads Objects()
    {
      match this
      case Substring(s) => s.current
      case Regexp(r) => r.found
      case _ => []
    }

    lemma SettledShows(d: nat, m: Match)
      requires Ready(d) && Settled(d)
      ensures Shows(d, m) <==> HasMatch(Held(), m)
    {
      hide SubstringNode.Valid, SubstringNode.Settled, SubstringNode.Shows;
      match this
      case Substring(s) => s.SettledShows(d, m);
      case Regexp(r) => r.SettledShows(d, m);
      case _ =>
    }

    /** The leaf was made for a shard of `n` documents. */
    ghost predicate Counts(n: nat) {
      && n < MaxU32
      && (Substring? ==> |sub.files| == n)
      && (Branch? ==> |branch.fileMasks| == n)
    }

    /** Where a jump of the leaf can end: a document that holds its trigrams, is listed or is in the branch. */
    ghost predicate Lands(d: nat) {
      match this
      case Substring(s) => s.iter.Lands(d)
      case Listed(l) => l.Sat(d)
      case Branch(m) => m.Sat(d)
      case Never => false
      case _ => true
    }

    /** The leaf jumps to the next document after the cursor where it can end, or to none. */
    ghost predicate Jumps(cursor: int, doc: u32) {
      && cursor < doc && (doc < MaxU32 ==> Lands(doc))
      && (Regexp? || Everything? ==> doc == cursor + 1)
      && (Listed? || Branch? ==> forall d :: cursor < d < doc && 0 <= d < MaxU32 ==> !Lands(d))
    }

    /** nextDoc: no document passed over satisfies the leaf. */
    method NextDoc(ghost cursor: int, ghost n: nat) returns (doc: u32)
      requires Ready(cursor) && Counts(n) && cursor < n
      modifies Objects()
      ensures Ready(cursor)
      ensures forall d :: cursor < d < doc && 0 <= d < n ==> !Sat(d)
      ensures Jumps(cursor, doc)
    {
      hide SubstringNode.Valid, SubstringNode.Sat, MatchIterator.Lands;
      match this
      case Substring(s) => doc := s.NextDoc();
      case Regexp(r) => doc := r.all.NextDoc(cursor);
      case Everything(b) => doc := b.NextDoc(cursor);
      case Listed(l) => l.NextDocSkips(cursor); doc := l.NextDoc();
      case Branch(m) => doc := m.NextDoc(cursor);
      case Never => doc := MaxU32;
    }

    method Prepare(doc: u32, ghost cursor: int, ghost n: nat)
      requires Ready(cursor) && Counts(n) && cursor < doc < n
      modifies Objects()
      ensures Ready(doc)
    {
      hide SubstringNode.Valid;
      match this
      case Substring(s) => s.Prepare(doc);
      case Regexp(r) => r.Prepare(doc);
      case Everything(b) => b.Prepare(doc);
      case Listed(l) => l.Prepare(doc, cursor);
      case Branch(m) => m.all.Prepare(doc);
      case Never =>
    }

    /** matches: three-valued; right whenever sure, and sure at the highest cost. */
    method Matches(doc: u32, cost: nat, ghost n: nat) returns (v: bool, sure: bool)
      requires Ready(doc) && Counts(n) && doc < n
      modifies Objects()
      ensures Ready(doc)
      ensures sure ==> v == Sat(doc)
      ensures sure && v ==> Settled(doc)
      ensures cost >= CostMax ==> sure
    {
      hide SubstringNode.Valid, SubstringNode.Sat, SubstringNode.Settled, BranchNode.Sat;
      match this
      case Substring(s) => v, sure := s.Matches(doc, cost);
      case Regexp(r) => v, sure := r.Matches(doc, cost);
      case Everything(b) => v, sure := true, true;
      case Listed(l) => v, sure := l.current != [], true;
      case Branch(m) => v := m.Matches(doc); sure := true;
      case Never => v, sure := false, true;
    }
  }
}
