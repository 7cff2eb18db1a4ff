/** The document loop of indexData.Search (eval.go:137-262). */
module SearchLoop {
  import opened Machine
  import opened MatchAtoms
  import opened MatchTree
  import opened DocumentMatches

  // ----- the loop -----

  /** `found` lists, in order, exactly the documents before `cutoff` that satisfy the tree. */
  ghost predicate FoundBelow(found: seq<u32>, t: Tree, cutoff: int) {
    && Increasing(found)
    && forall d: int :: d in found <==> 0 <= d < cutoff && t.Sat(d)
  }

  lemma FoundSkip(found: seq<u32>, t: Tree, a: int, b: int)
    requires FoundBelow(found, t, a) && a <= b
    requires forall d :: a <= d < b && 0 <= d ==> !t.Sat(d)
    ensures FoundBelow(found, t, b)
  {
    hide Tree.Sat;
  }

  lemma FoundAdd(found: seq<u32>, t: Tree, a: u32)
    requires FoundBelow(found, t, a)
    ensures t.Sat(a) ==> FoundBelow(found + [a], t, a + 1)
    ensures !t.Sat(a) ==> FoundBelow(found, t, a + 1)
  {
    hide Tree.Sat;
    assert forall i :: 0 <= i < |found| ==> found[i] in found;
  }

  /**
   * The evaluation of one document: cost by cost, until it fails or the last cost is done (eval.go:169-180). If the
   * document matches, the table of known values says which nodes to take matches from.
   */
  method Decide(mt: Tree, doc: u32, ghost n: nat) returns (matched: bool, known: map<nat, bool>)
    requires mt.Ready(doc) && mt.Proper(n) && doc < n && mt.Distinct()
    modifies mt.Objects()
    ensures mt.Ready(doc) && mt.Noted(known, doc)
    ensures matched == mt.Sat(doc)
    ensures matched ==> mt.Decided(known, doc)
  {
    hide Tree.Ready, Tree.Sat, Tree.Proper, Tree.Noted, Tree.Decided, Tree.Distinct, Extends;
    known := map[];
    mt.NothingNoted(doc);
    for cost := CostConst to CostMax + 1
      invariant mt.Ready(doc) && mt.id !in known && mt.Noted(known, doc)
      invariant cost == CostMax + 1 ==> mt.Sat(doc) && mt.Decided(known, doc)
    {
      var v, ok;
      v, ok, known := mt.Matches(doc, cost, known, n);
      if ok && !v {
        return false, known;
      }
      // At the last cost the tree has decided, so the "did not decide" panic is not reached.
      assert cost == CostMax ==> ok;
    }
    return true, known;
  }

  function DocsOf(files: seq<FileMatch>): (docs: seq<u32>)
    ensures |docs| == |files| && forall i :: 0 <= i < |files| ==> docs[i] == files[i].doc
  {
    seq(|files|, i requires 0 <= i < |files| => files[i].doc)
  }

  lemma DocsOfMore(files: seq<FileMatch>, f: FileMatch)
    ensures DocsOf(files + [f]) == DocsOf(files) + [f.doc]
  {
  }

  /** The lines of every file show the merged matches of the leaves that count for it. */
  ghost predicate AllShown(files: seq<FileMatch>, t: Tree, cp: Provider) {
    forall i :: 0 <= i < |files| ==> IsShown(files[i].lines, Shown(t, files[i].doc), cp.name(files[i].doc), cp.data(files[i].doc))
  }

  // ----- where the loop stops -----

  /** The lines of a file; a file found by its name has one. */
  function LinesOf(f: FileMatch): nat {
    match f.lines
    case InName(_, _) => 1
    case InContent(records) => |records|
  }

  /** Stats.MatchCount (eval.go:260). */
  function LineCount(files: seq<FileMatch>): nat {
    if files == [] then 0 else LineCount(files[..|files| - 1]) + LinesOf(files[|files| - 1])
  }

  /** The files in documents before `d`. */
  ghost function FilesBelow(files: seq<FileMatch>, d: int): seq<FileMatch> {
    if files == [] || files[|files| - 1].doc < d then files else FilesBelow(files[..|files| - 1], d)
  }

  lemma FilesBelowMore(files: seq<FileMatch>, f: FileMatch, d: int)
    requires d <= f.doc
    ensures FilesBelow(files + [f], d) == FilesBelow(files, d)
  {
    assert (files + [f])[..|files|] == files;
  }

  lemma FilesBelowAll(files: seq<FileMatch>, d: int)
    requires forall x :: x in DocsOf(files) ==> x < d
    ensures FilesBelow(files, d) == files
  {
    if files != [] {
      assert DocsOf(files)[|files| - 1] in DocsOf(files);
    }
  }

  /** Before this turn the search is cancelled or has reached its limit of important matches, or of lines. */
  ghost predicate Halts(stop: nat -> bool, limit: int, turn: nat, files: seq<FileMatch>) {
    stop(turn) || LineCount(files) >= limit
  }

  /** The document after `last` that the tree jumps to; a jump that is not ahead is to the next one. */
  ghost predicate Landing(t: Tree, last: int, doc: int) {
    exists jump: u32 :: t.Jumps(last, jump) && doc == if jump <= last then last + 1 else jump
  }

  function LastOr(looked: seq<u32>): int {
    if looked == [] then -1 else looked[|looked| - 1]
  }

  /** Turn `i` looks at the document the tree jumps to, and nothing halts the search before. */
  ghost predicate Turned(t: Tree, looked: seq<u32>, files: seq<FileMatch>, i: nat, stop: nat -> bool, limit: int)
    requires i < |looked|
  {
    Landing(t, LastOr(looked[..i]), looked[i]) && !Halts(stop, limit, i, FilesBelow(files, looked[i]))
  }

  /** The documents looked at, one after the other, as long as nothing halts the search; all files are of these. */
  ghost predicate Visits(t: Tree, looked: seq<u32>, files: seq<FileMatch>, stop: nat -> bool, limit: int) {
    && Increasing(looked) && (forall d :: d in DocsOf(files) ==> d in looked)
    && forall i :: 0 <= i < |looked| ==> Turned(t, looked, files, i, stop, limit)
  }

  /** The search ends at the first document it is halted before, or after the last one. */
  ghost predicate EndsAt(t: Tree, looked: seq<u32>, files: seq<FileMatch>, cutoff: int, docCount: int, stop: nat -> bool, limit: int) {
    && (forall d :: d in looked ==> d < cutoff)
    && if cutoff < docCount then Landing(t, LastOr(looked), cutoff) && Halts(stop, limit, |looked|, files)
       else cutoff == docCount && exists next :: next >= docCount && Landing(t, LastOr(looked), next)
  }

  /** `more` is `files`, or has one more file, of document `d`. */
  ghost predicate OneMore(files: seq<FileMatch>, more: seq<FileMatch>, d: int) {
    more == files || (more != [] && more[..|more| - 1] == files && more[|more| - 1].doc == d)
  }

  lemma FilesBelowKept(files: seq<FileMatch>, more: seq<FileMatch>, d: int, x: int)
    requires OneMore(files, more, d) && x <= d
    ensures FilesBelow(more, x) == FilesBelow(files, x)
    ensures forall y :: y in DocsOf(more) ==> y in DocsOf(files) || y == d
  {
    if more != files {
      assert more == files + [more[|more| - 1]];
      DocsOfMore(files, more[|more| - 1]);
      FilesBelowMore(files, more[|more| - 1], x);
    }
  }

  /** One more document is looked at, and perhaps found. */
  lemma VisitsMore(t: Tree, looked: seq<u32>, files: seq<FileMatch>, d: u32, more: seq<FileMatch>, stop: nat -> bool, limit: int)
    requires Visits(t, looked, files, stop, limit) && Landing(t, LastOr(looked), d) && LastOr(looked) < d
    requires !Halts(stop, limit, |looked|, files) && OneMore(files, more, d)
    ensures Visits(t, looked + [d], more, stop, limit)
  {
    hide Landing, Halts, FilesBelow, DocsOf, OneMore;
    var all := looked + [d];
    LookedBelow(t, looked, files, stop, limit);
    FilesBelowAll(files, d);
    FilesBelowKept(files, more, d, d);
    forall i | 0 <= i < |all| ensures Turned(t, all, more, i, stop, limit) {
      assert all[..i] == looked[..i];
      if i < |looked| {
        assert looked[i] in looked && Turned(t, looked, files, i, stop, limit);
        FilesBelowKept(files, more, d, looked[i]);
      } else {
        assert looked[..i] == looked;
      }
    }
  }

  /**
   * The loop of Search. `stop` says before which turns the search is cancelled or has reached the limit of important
   * matches, `limit` is ShardMaxMatchCount; the result is exact below the document before which the search is halted.
   */
  method Search(mt: Tree, docCount: u32, stop: nat -> bool, limit: int, cp: Provider)
    returns (files: seq<FileMatch>, cutoff: u32, ghost looked: seq<u32>)
    requires mt.Ready(-1) && mt.Proper(docCount) && mt.Distinct() && docCount < MaxU32 && Provides(cp, mt, docCount)
    modifies mt.Objects()
    ensures cutoff <= docCount
    ensures FoundBelow(DocsOf(files), mt, cutoff)
    ensures AllShown(files, mt, cp)
    ensures Visits(mt, looked, files, stop, limit) && EndsAt(mt, looked, files, cutoff, docCount, stop, limit)
    ensures (forall turn :: !stop(turn)) && LineCount(files) < limit ==> cutoff == docCount
  {
    hide Tree.Ready, Tree.Sat, Tree.Proper, Tree.Noted, Tree.Decided, Tree.Distinct, Tree.Jumps, Provides, IsShown, Shown, DocsOf, Visits,
      FoundBelow, Landing, EndsAt, AllShown, OneMore, LineCount, Halts;
    files, looked := [], [];
    var lastDoc := -1;
    var turn, matchCount := 0, 0;
    NothingVisited(mt, stop, limit);
    NothingFound(mt, cp);
    while true
      invariant -1 <= lastDoc < docCount && lastDoc == LastOr(looked) && turn == |looked| && matchCount == LineCount(files)
      invariant mt.Ready(lastDoc)
      invariant FoundBelow(DocsOf(files), mt, lastDoc + 1)
      invariant AllShown(files, mt, cp)
      invariant Visits(mt, looked, files, stop, limit)
      decreases docCount - lastDoc
    {
      var jump := mt.NextDoc(lastDoc, docCount);
      var nextDoc: int := if jump <= lastDoc then lastDoc + 1 else jump;
      LandsHere(mt, lastDoc, jump, nextDoc);
      if nextDoc >= docCount {
        FoundSkip(DocsOf(files), mt, lastDoc + 1, docCount);
        AtTheEnd(mt, looked, files, nextDoc, docCount, stop, limit);
        return files, docCount, looked;
      }
      FoundSkip(DocsOf(files), mt, lastDoc + 1, nextDoc);
      Halting(stop, limit, turn, files);
      if stop(turn) || matchCount >= limit {
        Halted(mt, looked, files, nextDoc, docCount, stop, limit);
        return files, nextDoc, looked;
      }
      turn := turn + 1;
      FoundAdd(DocsOf(files), mt, nextDoc);
      ghost var before := files;
      NoMore(files, nextDoc);
      var fm := LookAt(mt, nextDoc, lastDoc, docCount, cp);
      if fm.Some? {
        OneMoreFile(files, fm.value, mt, cp);
        files := files + [fm.value];
        matchCount := matchCount + LinesOf(fm.value);
      }
      VisitsMore(mt, looked, before, nextDoc, files, stop, limit);
      lastDoc, looked := nextDoc, looked + [nextDoc];
    }
  }

  /** One document: its file if it matches (eval.go:164-261). */
  method LookAt(mt: Tree, doc: u32, ghost last: int, docCount: u32, cp: Provider) returns (fm: Option<FileMatch>)
    requires mt.Ready(last) && mt.Proper(docCount) && mt.Distinct() && last < doc < docCount && Provides(cp, mt, docCount)
    modifies mt.Objects()
    ensures mt.Ready(doc)
    ensures fm.Some? <==> mt.Sat(doc)
    ensures fm.Some? ==> fm.value.doc == doc && IsShown(fm.value.lines, Shown(mt, doc), cp.name(doc), cp.data(doc))
  {
    hide Tree.Ready, Tree.Sat, Tree.Proper, Tree.Noted, Tree.Decided, Tree.Distinct, Provides, IsShown, Shown;
    mt.Prepare(doc, last, docCount);
    var matched, known := Decide(mt, doc, docCount);
    if !matched {
      return None;
    }
    assert allocated(mt.Objects());
    var file := ShowDocument(mt, known, doc, cp, docCount);
    return Some(file);
  }

  lemma NothingFound(t: Tree, cp: Provider)
    ensures FoundBelow(DocsOf([]), t, 0) && AllShown([], t, cp) && LineCount([]) == 0
  {
  }

  lemma NoMore(files: seq<FileMatch>, d: int)
    ensures OneMore(files, files, d)
  {
  }

  lemma OneMoreFile(files: seq<FileMatch>, f: FileMatch, t: Tree, cp: Provider)
    requires AllShown(files, t, cp) && IsShown(f.lines, Shown(t, f.doc), cp.name(f.doc), cp.data(f.doc))
    ensures DocsOf(files + [f]) == DocsOf(files) + [f.doc] && OneMore(files, files + [f], f.doc)
    ensures LineCount(files + [f]) == LineCount(files) + LinesOf(f) && AllShown(files + [f], t, cp)
  {
    hide IsShown, Shown;
    DocsOfMore(files, f);
    assert (files + [f])[..|files|] == files;
  }

  lemma Halting(stop: nat -> bool, limit: int, turn: nat, files: seq<FileMatch>)
    ensures Halts(stop, limit, turn, files) <==> stop(turn) || LineCount(files) >= limit
  {
  }

  lemma Halted(t: Tree, looked: seq<u32>, files: seq<FileMatch>, cutoff: u32, docCount: u32, stop: nat -> bool, limit: int)
    requires Visits(t, looked, files, stop, limit) && Landing(t, LastOr(looked), cutoff) && LastOr(looked) < cutoff < docCount
    requires Halts(stop, limit, |looked|, files)
    ensures EndsAt(t, looked, files, cutoff, docCount, stop, limit)
  {
    hide Landing, Halts, Visits;
    LookedBelow(t, looked, files, stop, limit);
  }

  lemma AtTheEnd(t: Tree, looked: seq<u32>, files: seq<FileMatch>, next: int, docCount: u32, stop: nat -> bool, limit: int)
    requires Visits(t, looked, files, stop, limit) && Landing(t, LastOr(looked), next) && LastOr(looked) < docCount <= next
    ensures EndsAt(t, looked, files, docCount, docCount, stop, limit)
  {
    hide Landing, Halts, Visits;
    LookedBelow(t, looked, files, stop, limit);
  }

  lemma LandsHere(t: Tree, last: int, jump: u32, doc: int)
    requires t.Jumps(last, jump) && doc == if jump <= last then last + 1 else jump
    ensures Landing(t, last, doc)
  {
  }

  lemma NothingVisited(t: Tree, stop: nat -> bool, limit: int)
    ensures Visits(t, [], [], stop, limit)
  {
  }

  lemma LookedBelow(t: Tree, looked: seq<u32>, files: seq<FileMatch>, stop: nat -> bool, limit: int)
    requires Visits(t, looked, files, stop, limit)
    ensures forall d :: d in looked ==> d <= LastOr(looked)
  {
    hide Turned, DocsOf;
  }
}
