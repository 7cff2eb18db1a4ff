/** The substring node of the match tree (substrMatchTree, matchtree.go). */
module SubstringMatching {
  import opened Machine
  import opened Utf8
  import opened Corpus
  import opened Postings
  import opened RuneLookup
  import opened ContentMatch
  import opened ContentSlices
  import opened SectionFilter

  /** candidateMatch: a place in one document, in runes, and once it is known in bytes. */
  datatype Candidate = Candidate(fileName: bool, runeOffset: u32, byteOffset: u32, byteMatchSz: u32)

  /** A match in a document: in its name or in its content, from a byte on, of a size. */
  datatype Match = Match(fileName: bool, start: int, size: int)

  function MatchOf(c: Candidate): Match {
    Match(c.fileName, c.byteOffset, c.byteMatchSz)
  }

  /** The match is among the candidates. */
  predicate HasMatch(cands: seq<Candidate>, m: Match) {
    exists i :: 0 <= i < |cands| && MatchOf(cands[i]) == m
  }

  /** Everything the lookup of byte offsets needs to be exact. */
  ghost predicate Searchable(t: TextTable, plainASCII: bool, files: seq<seq<byte>>) {
    && Tabulates(t, files) && AllClosed(files)
    && (plainASCII ==> Narrow(Flat(Tokenize(files))))
    && (!plainASCII && !t.fileName ==> WindowsFit(files) && ReadsFit(t, files))
  }

  /** Between a sample and any rune of its hundred there are never more bytes than are read. */
  ghost predicate WindowsFit(files: seq<seq<byte>>) {
    forall p :: 0 <= p < |Flat(Tokenize(files))| ==> Window(files, p) <= ContentWindow
  }

  /** They can all be read. */
  ghost predicate ReadsFit(t: TextTable, files: seq<seq<byte>>) {
    forall p :: 0 <= p < |Flat(Tokenize(files))| ==> Reads(t, files, p)
  }

  /** Where document `d` stands in the mapped bytes. */
  lemma {:induction false} FileInMapped(t: TextTable, files: seq<seq<byte>>, d: nat)
    requires Tabulates(t, files) && d < |files|
    ensures t.bounds[d] + |files[d]| == t.bounds[d + 1] <= |Bytes(files)| <= |t.mapped|
    ensures t.mapped[t.bounds[d]..] == files[d] + t.mapped[t.bounds[d + 1]..]
    ensures t.mapped[t.bounds[d]..t.bounds[d + 1]] == files[d]
  {
    hide Flat, Tokenize, Sampled, Ends;
    var all := Bytes(files);
    BytesSplit(files, d);
    var tail := t.mapped[|all|..];
    assert t.mapped == all + tail;
    var a, b := t.bounds[d], t.bounds[d + 1];
    assert all[a..b] == files[d] && t.mapped[a..b] == all[a..b];
    assert t.mapped[a..] == t.mapped[a..b] + t.mapped[b..];
  }

  lemma {:induction false} BytesSplit(files: seq<seq<byte>>, d: nat)
    requires d < |files|
    ensures |Bytes(files[..d + 1])| == |Bytes(files[..d])| + |files[d]| <= |Bytes(files)|
    ensures Bytes(files)[|Bytes(files[..d])|..|Bytes(files[..d + 1])|] == files[d]
  {
    assert files[..d + 1][..d] == files[..d];
    if d == |files| - 1 {
      assert files[..d + 1] == files;
    } else {
      var init := files[..|files| - 1];
      BytesSplit(init, d);
      assert init[..d] == files[..d] && init[..d + 1] == files[..d + 1];
    }
  }

  function RuneOffsets(cands: seq<Candidate>): (rs: seq<int>)
    ensures |rs| == |cands| && forall i :: 0 <= i < |cands| ==> rs[i] == cands[i].runeOffset
  {
    seq(|cands|, i requires 0 <= i < |cands| => cands[i].runeOffset)
  }

  class SubstringNode {
    const iter: MatchIterator
    const needle: Needle
    const table: TextTable
    const plainASCII: bool
    var current: seq<Candidate>

    /** The texts the index was built from, and the document last prepared. */
    ghost const files: seq<seq<byte>>
    ghost var cursor: int
    /** The objects of the iterator. */
    ghost const repr: set<object>

    ghost function Objects(): set<object> {
      {this} + repr
    }

    ghost predicate Setup() {
      && this !in repr
      && Searchable(table, plainASCII, files)
      && iter.Counts(table.endRunes)
      && needle.Ok() && needle.Length() >= 1
      && (needle.caseSensitive ==> SlicesInside(files, |table.mapped|, needle.pattern))
      && (forall d, r :: 0 <= d < |files| && r in iter.Offers(d) ==>
            0 <= r && r + needle.Length() <= |Tokens(files[d])|)
    }

    /** The meaning of the node: one of the places the iterator offers in document `d` matches. */
    ghost predicate Sat(d: nat) {
      d < |files| && exists r :: r in iter.Offers(d) && needle.MatchAt(files[d], r)
    }

    /** No match is missing from the candidates, and byte offsets are unknown (0) or right. */
    ghost predicate Holds(cands: seq<Candidate>, d: nat)
      requires d < |files|
    {
      && (forall i, j :: 0 <= i < j < |cands| ==> cands[i].runeOffset < cands[j].runeOffset)
      && (forall i :: 0 <= i < |cands| ==>
            cands[i].fileName == table.fileName && cands[i].runeOffset in iter.Offers(d) &&
            (cands[i].byteOffset == 0 || cands[i].byteOffset == Offset(files[d], cands[i].runeOffset)))
      && (forall r :: r in iter.Offers(d) && needle.MatchAt(files[d], r) ==>
            exists i :: 0 <= i < |cands| && cands[i].runeOffset == r)
    }

    /** A confirmed match: at the right byte, of the right size. */
    ghost predicate Confirmed(c: Candidate, d: nat)
      requires d < |files|
    {
      && needle.MatchAt(files[d], c.runeOffset)
      && c.byteOffset == Offset(files[d], c.runeOffset)
      && c.byteMatchSz == needle.MatchSize(files[d], c.runeOffset)
    }

    /** The matches of the node in document `d`: those the iterator offers. */
    ghost predicate Shows(d: nat, m: Match) {
      && d < |files| && m.fileName == table.fileName
      && exists r :: r in iter.Offers(d) && needle.MatchAt(files[d], r)
                     && m.start == Offset(files[d], r) && m.size == needle.MatchSize(files[d], r)
    }

    /** Once it is settled the node holds exactly its matches. */
    lemma SettledShows(d: nat, m: Match)
      requires Valid() && cursor == d && Settled(d)
      ensures Shows(d, m) <==> HasMatch(current, m)
    {
      hide Setup, MatchIterator.Ready, MatchIterator.Offers, Needle.MatchAt, Needle.MatchSize, Offset;
      if Shows(d, m) {
        var r :| r in iter.Offers(d) && needle.MatchAt(files[d], r)
                 && m.start == Offset(files[d], r) && m.size == needle.MatchSize(files[d], r);
        var i :| 0 <= i < |current| && current[i].runeOffset == r;
        assert Confirmed(current[i], d) && MatchOf(current[i]) == m;
      }
      if i :| 0 <= i < |current| && MatchOf(current[i]) == m {
        assert Confirmed(current[i], d) && current[i].runeOffset in iter.Offers(d);
      }
    }

    /** A match lies in its text. */
    lemma ShownInside(d: nat, m: Match)
      requires Shows(d, m)
      ensures 0 <= m.start && 0 <= m.size && m.start + m.size <= |files[d]|
    {
      hide Tokens;
      var r :| r in iter.Offers(d) && needle.MatchAt(files[d], r)
               && m.start == Offset(files[d], r) && m.size == needle.MatchSize(files[d], r);
      OffsetInside(files[d], r, needle.Length());
    }

    /** All candidates that are left in the current document are confirmed. */
    ghost predicate Settled(d: nat)
      reads this
    {
      d < |files| && forall i :: 0 <= i < |current| ==> Confirmed(current[i], d)
    }

    ghost predicate Valid()
      reads Objects()
    {
      && Setup() && repr == iter.Objects() && iter.Ready(cursor) && -1 <= cursor < |files|
      && (cursor >= 0 ==> Holds(current, cursor))
    }

    constructor (iter: MatchIterator, needle: Needle, table: TextTable, plainASCII: bool, ghost files: seq<seq<byte>>)
      requires iter.Ready(-1) && Searchable(table, plainASCII, files) && iter.Counts(table.endRunes)
      requires needle.Ok() && needle.Length() >= 1
      requires needle.caseSensitive ==> SlicesInside(files, |table.mapped|, needle.pattern)
      requires forall d, r :: 0 <= d < |files| && r in iter.Offers(d) ==>
                 0 <= r && r + needle.Length() <= |Tokens(files[d])|
      ensures Valid() && cursor == -1 && current == []
      ensures this.iter == iter && this.needle == needle && this.table == table && this.files == files
      ensures repr == iter.Objects()
    {
      hide MatchIterator.Ready, MatchIterator.Offers, MatchIterator.Counts, Searchable, Needle.Ok, Needle.Length;
      this.iter, this.needle, this.table, this.plainASCII := iter, needle, table, plainASCII;
      this.files, repr := files, iter.Objects();
      current, cursor := [], -1;
    }

    method NextDoc() returns (doc: u32)
      requires Valid()
      modifies Objects()
      ensures Valid() && cursor == old(cursor) && current == old(current)
      ensures forall d :: cursor < d < doc && 0 <= d < |files| ==> !Sat(d)
      ensures cursor < doc && (doc < MaxU32 ==> iter.Lands(doc))
    {
      hide MatchIterator.Ready, MatchIterator.Lands, MatchIterator.Objects, MatchIterator.Offers, Setup, Holds, Searchable, Needle.MatchAt;
      assert iter.Counts(table.endRunes) && |table.endRunes| == |files| && this !in repr by { SetupFacts(); }
      doc := iter.NextDoc(cursor, table.endRunes);
    }

    lemma SetupFacts()
      requires Setup()
      ensures iter.Counts(table.endRunes) && |table.endRunes| == |files| && this !in repr
    {
    }

    method Prepare(doc: u32)
      requires Valid() && cursor < doc < |files|
      modifies Objects()
      ensures Valid() && cursor == doc
    {
      hide MatchIterator.Ready, MatchIterator.Objects, MatchIterator.Offers, Setup, Searchable, Needle.MatchAt;
      SetupFacts();
      var offs := iter.Prepare(doc, cursor, table.endRunes);
      cursor := doc;
      current := seq(|offs|, i requires 0 <= i < |offs| => Candidate(table.fileName, offs[i], 0, 0));
      assert forall i :: 0 <= i < |offs| ==> offs[i] in Elements(offs) && current[i].runeOffset == offs[i];
      forall r | r in iter.Offers(doc) ensures exists i :: 0 <= i < |current| && current[i].runeOffset == r {
        assert r in Elements(offs);
        var i :| 0 <= i < |offs| && offs[i] == r;
        assert current[i].runeOffset == r;
      }
    }

    /** The byte offset of a candidate, looked up unless it is known (matchtree.go:482-484). */
    method Locate(doc: u32, c: Candidate) returns (c': Candidate)
      requires Setup() && doc < |files|
      requires c.runeOffset + needle.Length() <= |Tokens(files[doc])|
      requires c.byteOffset == 0 || c.byteOffset == Offset(files[doc], c.runeOffset)
      ensures c' == c.(byteOffset := c'.byteOffset) && c'.byteOffset == Offset(files[doc], c.runeOffset)
    {
      hide Tokens, Flat, Tokenize, Bytes, Offset, MatchIterator.Offers, MatchIterator.Counts, Tabulates, Narrow,
        Needle.Ok, Needle.Length;
      c' := c;
      FirstRune(files[doc]);
      if c.byteOffset == 0 && c.runeOffset > 0 {
        assert c.runeOffset < |Tokens(files[doc])|;
        var off := FindOffset(table, plainASCII, doc, c.runeOffset, files);
        c' := c.(byteOffset := off);
      }
    }

    /** Of the first `k` candidates, exactly those that match have been kept. */
    ghost predicate PrunedTo(pruned: seq<Candidate>, all: seq<Candidate>, k: nat, d: nat)
      requires d < |files| && k <= |all|
    {
      && (forall i :: 0 <= i < |pruned| ==>
            Confirmed(pruned[i], d) && pruned[i].runeOffset in iter.Offers(d) && pruned[i].fileName == table.fileName)
      && (forall i, j :: 0 <= i < j < |pruned| ==> pruned[i].runeOffset < pruned[j].runeOffset)
      && (forall i, j :: 0 <= i < |pruned| && k <= j < |all| ==> pruned[i].runeOffset < all[j].runeOffset)
      && (forall i :: 0 <= i < k && needle.MatchAt(files[d], all[i].runeOffset) ==>
            exists j :: 0 <= j < |pruned| && pruned[j].runeOffset == all[i].runeOffset)
    }

    lemma PruneKeeps(pruned: seq<Candidate>, all: seq<Candidate>, k: nat, d: nat, c: Candidate)
      requires d < |files| && k < |all| && PrunedTo(pruned, all, k, d) && Holds(all, d)
      requires Confirmed(c, d) && c.runeOffset == all[k].runeOffset && c.fileName == all[k].fileName
      ensures PrunedTo(pruned + [c], all, k + 1, d)
    {
      hide Confirmed, Needle.MatchAt, MatchIterator.Offers;
      var more := pruned + [c];
      assert more[|pruned|] == c && forall j :: 0 <= j < |pruned| ==> more[j] == pruned[j];
      forall i | 0 <= i < k + 1 && needle.MatchAt(files[d], all[i].runeOffset)
        ensures exists j :: 0 <= j < |more| && more[j].runeOffset == all[i].runeOffset
      {
        if i < k {
          var j :| 0 <= j < |pruned| && pruned[j].runeOffset == all[i].runeOffset;
          assert more[j].runeOffset == all[i].runeOffset;
        } else {
          assert more[|pruned|].runeOffset == all[i].runeOffset;
        }
      }
    }

    lemma PruneDrops(pruned: seq<Candidate>, all: seq<Candidate>, k: nat, d: nat)
      requires d < |files| && k < |all| && PrunedTo(pruned, all, k, d) && Holds(all, d)
      requires !needle.MatchAt(files[d], all[k].runeOffset)
      ensures PrunedTo(pruned, all, k + 1, d)
    {
    }

    lemma PruneDone(pruned: seq<Candidate>, all: seq<Candidate>, d: nat)
      requires d < |files| && PrunedTo(pruned, all, |all|, d) && Holds(all, d)
      ensures Holds(pruned, d) && forall i :: 0 <= i < |pruned| ==> Confirmed(pruned[i], d)
    {
      hide Needle.MatchAt, MatchIterator.Offers, Needle.MatchSize, Offset;
      forall r | r in iter.Offers(d) && needle.MatchAt(files[d], r)
        ensures exists i :: 0 <= i < |pruned| && pruned[i].runeOffset == r
      {
        var i :| 0 <= i < |all| && all[i].runeOffset == r;
      }
    }

    /** Pruning a pruned list changes nothing: the confirmed matches of a document are one list. */
    lemma PrunedUnique(a: seq<Candidate>, b: seq<Candidate>, d: nat)
      requires d < |files| && Holds(a, d) && Holds(b, d)
      requires forall i :: 0 <= i < |a| ==> Confirmed(a[i], d)
      requires forall i :: 0 <= i < |b| ==> Confirmed(b[i], d)
      ensures a == b
    {
      hide Confirmed, Holds;
      var ra, rb := RuneOffsets(a), RuneOffsets(b);
      ConfirmedInOther(a, b, d);
      ConfirmedInOther(b, a, d);
      IncreasingSetUnique(ra, rb);
      assert |a| == |b|;
      forall i | 0 <= i < |a| ensures a[i] == b[i] {
        assert a[i].runeOffset == ra[i] && b[i].runeOffset == rb[i];
        assert Confirmed(a[i], d) && Confirmed(b[i], d);
        assert a[i].fileName == b[i].fileName by { OneKind(a, i, d); OneKind(b, i, d); }
        ConfirmedSame(a[i], b[i], d);
      }
    }

    lemma OneKind(cands: seq<Candidate>, i: nat, d: nat)
      requires d < |files| && Holds(cands, d) && i < |cands|
      ensures cands[i].fileName == table.fileName
    {
    }

    lemma ConfirmedSame(c: Candidate, e: Candidate, d: nat)
      requires d < |files| && Confirmed(c, d) && Confirmed(e, d)
      requires c.fileName == e.fileName && c.runeOffset == e.runeOffset
      ensures c == e
    {
    }

    lemma ConfirmedInOther(a: seq<Candidate>, b: seq<Candidate>, d: nat)
      requires d < |files| && Holds(a, d) && Holds(b, d)
      requires forall i :: 0 <= i < |a| ==> Confirmed(a[i], d)
      ensures Increasing(RuneOffsets(a)) && forall x :: x in RuneOffsets(a) ==> x in RuneOffsets(b)
    {
      hide Needle.MatchAt, MatchIterator.Offers, Needle.MatchSize, Offset;
      forall x | x in RuneOffsets(a) ensures x in RuneOffsets(b) {
        var i :| 0 <= i < |a| && RuneOffsets(a)[i] == x;
        assert Confirmed(a[i], d);
        var j :| 0 <= j < |b| && b[j].runeOffset == x;
        assert RuneOffsets(b)[j] == x;
      }
    }

    /** The loop of substrMatchTree.matches: keep the candidates that the text confirms. */
    method PruneLoop(doc: u32, all: seq<Candidate>) returns (pruned: seq<Candidate>)
      requires Setup() && doc < |files| && Holds(all, doc)
      ensures Holds(pruned, doc) && forall i :: 0 <= i < |pruned| ==> Confirmed(pruned[i], doc)
    {
      hide MatchIterator.Offers, Setup, Needle.MatchAt, Needle.MatchSize, Tokens, Offset, PrunedTo, Needle.Length;
      pruned := [];
      NothingPruned(all, doc);
      for k := 0 to |all|
        invariant PrunedTo(pruned, all, k, doc)
      {
        OfferFits(doc, all[k].runeOffset);
        var c := Locate(doc, all[k]);
        var ok, sz := MatchContent(doc, c);
        if ok {
          c := c.(byteMatchSz := sz);
          PruneKeeps(pruned, all, k, doc, c);
          pruned := pruned + [c];
        } else {
          PruneDrops(pruned, all, k, doc);
        }
      }
      PruneDone(pruned, all, doc);
    }

    method Prune(doc: u32)
      requires Valid() && cursor == doc
      modifies this`current
      ensures Valid() && Settled(doc)
    {
      hide MatchIterator.Ready, MatchIterator.Objects, MatchIterator.Offers, Setup, Holds, Confirmed, MatchIterator.Counts;
      SetupFacts();
      var pruned := PruneLoop(doc, current);
      current := pruned;
    }

    lemma NothingPruned(all: seq<Candidate>, d: nat)
      requires d < |files|
      ensures PrunedTo([], all, 0, d)
    {
    }

    lemma OfferFits(d: nat, r: int)
      requires Setup() && d < |files| && r in iter.Offers(d)
      ensures 0 <= r && r + needle.Length() <= |Tokens(files[d])|
    {
    }

    /** matches: silent below its cost, and right whenever it is sure. */
    method Matches(doc: u32, cost: nat) returns (v: bool, sure: bool)
      requires Valid() && cursor == doc
      modifies this`current
      ensures Valid()
      ensures sure ==> v == Sat(doc)
      ensures sure <==> old(current) == [] || cost >= if table.fileName then 1 else 2
      ensures sure && v ==> Settled(doc)
    {
      hide MatchIterator.Ready, MatchIterator.Objects, MatchIterator.Offers, Setup, Needle.MatchAt, Needle.MatchSize, Offset;
      if |current| == 0 {
        return false, true;
      }
      if table.fileName && cost < 1 {
        return false, false;
      }
      if !table.fileName && cost < 2 {
        return false, false;
      }
      Prune(doc);
      assert |current| > 0 ==> Confirmed(current[0], doc);
      return |current| > 0, true;
    }

    /** matchContent, with the content seen as the mapped bytes from the start of the document on. */
    method MatchContent(doc: u32, c: Candidate) returns (ok: bool, sz: u32)
      requires Setup() && doc < |files|
      requires c.runeOffset + needle.Length() <= |Tokens(files[doc])|
      requires c.byteOffset == Offset(files[doc], c.runeOffset)
      ensures ok <==> needle.MatchAt(files[doc], c.runeOffset)
      ensures ok ==> sz == needle.MatchSize(files[doc], c.runeOffset)
    {
      assert |table.mapped| <= MaxU32;
      hide Tokens, Tabulates, Bytes, Offset, WindowsFit, MatchIterator.Offers, MatchIterator.Counts, Needle.Ok, Closed;
      if needle.caseSensitive {
        ok := CompareExact(table, files, doc, needle.pattern, c);
        assert SliceEnd(files, doc, c.runeOffset, needle.pattern) <= |table.mapped|;
        sz := |needle.pattern|;
      } else {
        ok, sz := CompareFolded(table, files, doc, needle, c);
      }
    }
  }

  /** The case sensitive half of matchContent: bytes against bytes, from the document on. */
  method CompareExact(t: TextTable, ghost files: seq<seq<byte>>, doc: u32, pattern: seq<byte>, c: Candidate)
    returns (ok: bool)
    requires Tabulates(t, files) && doc < |files| && Closed(files[doc])
    requires SlicesInside(files, |t.mapped|, pattern)
    requires c.runeOffset + |Tokens(pattern)| <= |Tokens(files[doc])|
    requires c.byteOffset == Offset(files[doc], c.runeOffset)
    ensures ok <==> OccursAt(pattern, files[doc], Offset(files[doc], c.runeOffset))
  {
    hide Tokens, Flat, Tokenize, Bytes, Offset, Sampled, Ends, OccursAt, Closed;
    FileInMapped(t, files, doc);
    ghost var text, rest := files[doc], t.mapped[t.bounds[doc + 1]..];
    OffsetInside(text, c.runeOffset, |Tokens(pattern)|);
    assert SliceEnd(files, doc, c.runeOffset, pattern) <= |t.mapped|;
    var lo := t.bounds[doc] + c.byteOffset;
    ok := t.mapped[lo..lo + |pattern|] == pattern;
    CompareBytes(pattern, t.mapped, t.bounds[doc], text, rest, c.byteOffset);
    CompareInside(pattern, text, rest, c.runeOffset);
  }

  /** The other half: rune by rune in lower case, inside the document. */
  method CompareFolded(t: TextTable, ghost files: seq<seq<byte>>, doc: u32, n: Needle, c: Candidate)
    returns (ok: bool, sz: u32)
    requires Tabulates(t, files) && doc < |files| && n.Ok() && !n.caseSensitive
    requires c.runeOffset + n.Length() <= |Tokens(files[doc])|
    requires c.byteOffset == Offset(files[doc], c.runeOffset)
    ensures ok <==> n.MatchAt(files[doc], c.runeOffset)
    ensures ok ==> sz == n.MatchSize(files[doc], c.runeOffset)
  {
    hide Tokens, Flat, Tokenize, Bytes, Sampled, Ends, Needle.MatchAt, Needle.MatchSize, Suffix, LowerPrefix, CaseTables.Ok;
    FileInMapped(t, files, doc);
    var content := t.mapped[t.bounds[doc]..t.bounds[doc + 1]];
    OffsetInside(files[doc], c.runeOffset, n.Length());
    var size;
    size, ok := CaseFoldingEqualsRunes(n.tables.lower, n.lowered, content[c.byteOffset..]);
    FoldedCompare(n, files[doc], c.runeOffset);
    sz := if ok then size else 0;
  }

  lemma FirstRune(text: seq<byte>)
    ensures Offset(text, 0) == 0
  {
  }

  lemma OffsetInside(text: seq<byte>, r: nat, n: nat)
    requires r + n <= |Tokens(text)|
    ensures Offset(text, r) <= Offset(text, r + n) <= |text|
  {
    OffsetMonotone(text, r, r + n);
  }

  /** Comparing in the mapped bytes is comparing in the document and what follows it. */
  lemma CompareBytes(pattern: seq<byte>, mapped: seq<byte>, base: nat, text: seq<byte>, rest: seq<byte>, off: nat)
    requires base <= |mapped| && mapped[base..] == text + rest && base + off + |pattern| <= |mapped|
    ensures mapped[base + off..base + off + |pattern|] == pattern <==> OccursAt(pattern, text + rest, off)
  {
    assert mapped[base..][off..off + |pattern|] == mapped[base + off..base + off + |pattern|];
  }

  lemma CompareInside(pattern: seq<byte>, text: seq<byte>, rest: seq<byte>, r: nat)
    requires Closed(text) && r + |Tokens(pattern)| <= |Tokens(text)|
    ensures OccursAt(pattern, text + rest, Offset(text, r)) <==> OccursAt(pattern, text, Offset(text, r))
  {
    var off := Offset(text, r);
    if OccursAt(pattern, text + rest, off) {
      NoOverrun(pattern, text, rest, r);
    }
    if OccursAt(pattern, text, off) {
      assert (text + rest)[off..off + |pattern|] == text[off..off + |pattern|];
    }
  }

  /** The lower case comparison at byte offset of rune `r` is the rune by rune one. */
  lemma FoldedCompare(n: Needle, text: seq<byte>, r: nat)
    requires n.Ok() && !n.caseSensitive && r + n.Length() <= |Tokens(text)|
    ensures LowerPrefix(n.tables.lower, Tokens(n.lowered), Tokens(text[Offset(text, r)..])) <==> n.MatchAt(text, r)
    ensures Offset(text[Offset(text, r)..], |Tokens(n.lowered)|) == n.MatchSize(text, r)
  {
    hide Tokens, Suffix;
    var off := Offset(text, r);
    RunesScalar(n.pattern);
    LoweredRunes(n.tables.lower, Runes(n.pattern));
    SuffixIsSlice(text, r);
    SuffixTokens(text, r);
    SuffixSuffix(text, r, n.Length());
    var rest := Tokens(text[off..]);
    assert rest == Tokens(text)[r..];
    assert forall i :: 0 <= i < n.Length() ==> rest[i] == Tokens(text)[r + i];
    assert forall i :: 0 <= i < n.Length() ==> Tokens(n.lowered)[i].rune == n.tables.lower(Tokens(n.pattern)[i].rune);
  }
}
