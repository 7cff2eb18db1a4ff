/**
 * From a document that matches to the lines that are shown (visitMatches, matchtree.go:345-365; eval.go:207-227 and
 * gatherMatches, eval.go:298-348; fillMatches, contentprovider.go:136-164).
 */
module DocumentMatches {
  import opened Machine
  import opened SubstringMatching
  import opened MatchAtoms
  import opened MatchTree
  import opened MatchAssembly
  import opened LineAssembly

  // ----- the leaves that contribute matches -----

  /** visitMatches: through and/or to the children that are known to match, never below not or a prefilter. */
  function Visited(t: Tree, known: map<nat, bool>): seq<Atom>
    decreases t, 1
  {
    match t
    case Leaf(_, a) => [a]
    case And(_, cs) => VisitedBelow(cs, known)
    case Or(_, cs) => VisitedBelow(cs, known)
    case _ => []
  }

  function VisitedBelow(cs: seq<Tree>, known: map<nat, bool>): seq<Atom>
    decreases cs, 0
  {
    if cs == [] then []
    else
      (if cs[0].id in known && known[cs[0].id] then Visited(cs[0], known) else []) + VisitedBelow(cs[1..], known)
  }

  /** The leaves whose matches count for a document, by the meaning of the tree alone. */
  ghost function Visible(t: Tree, d: nat): seq<Atom>
    decreases t, 1
  {
    match t
    case Leaf(_, a) => [a]
    case And(_, cs) => VisibleBelow(cs, d)
    case Or(_, cs) => VisibleBelow(cs, d)
    case _ => []
  }

  ghost function VisibleBelow(cs: seq<Tree>, d: nat): seq<Atom>
    decreases cs, 0
  {
    if cs == [] then [] else (if cs[0].Sat(d) then Visible(cs[0], d) else []) + VisibleBelow(cs[1..], d)
  }

  /** After the last cost matches are taken from exactly the leaves that count; these match, and hold their matches. */
  lemma {:induction false} VisitedExact(t: Tree, known: map<nat, bool>, d: nat)
    requires t.Ready(d) && t.Noted(known, d) && t.Decided(known, d) && t.Sat(d)
    ensures Visited(t, known) == Visible(t, d)
    ensures forall a :: a in Visible(t, d) ==> a.Sat(d) && a.Settled(d) && a.Ready(d)
    decreases t, 1
  {
    hide Atom.Sat, Atom.Settled, Atom.Ready;
    match t
    case And(_, cs) => VisitedBelowExact(cs, known, d);
    case Or(_, cs) => VisitedBelowExact(cs, known, d);
    case _ =>
  }

  lemma {:induction false} VisitedBelowExact(cs: seq<Tree>, known: map<nat, bool>, d: nat)
    requires forall i :: 0 <= i < |cs| ==> cs[i].Ready(d) && cs[i].Noted(known, d) && cs[i].id in known
    ensures VisitedBelow(cs, known) == VisibleBelow(cs, d)
    ensures forall a :: a in VisibleBelow(cs, d) ==> a.Sat(d) && a.Settled(d) && a.Ready(d)
    decreases cs, 0
  {
    hide Atom.Sat, Atom.Settled, Atom.Ready, Tree.Sat, Tree.Decided;
    if cs != [] {
      assert cs[0].Noted(known, d);
      if known[cs[0].id] {
        VisitedExact(cs[0], known, d);
      }
      VisitedBelowExact(cs[1..], known, d);
    }
  }

  // ----- gathering -----

  /** `m` is a match of a leaf that counts for the document. */
  ghost predicate TreeShows(t: Tree, d: nat, m: Match) {
    ShownBy(Visible(t, d), d, m)
  }

  ghost predicate ShownBy(leaves: seq<Atom>, d: nat, m: Match) {
    exists i :: 0 <= i < |leaves| && leaves[i].Shows(d, m)
  }

  lemma ShownByMore(leaves: seq<Atom>, i: nat, d: nat, m: Match)
    requires i < |leaves|
    ensures ShownBy(leaves[..i + 1], d, m) <==> ShownBy(leaves[..i], d, m) || leaves[i].Shows(d, m)
  {
    hide Atom.Shows;
    var a, b := leaves[..i], leaves[..i + 1];
    if ShownBy(a, d, m) {
      var j :| 0 <= j < |a| && a[j].Shows(d, m);
      assert b[j] == a[j];
    }
    if leaves[i].Shows(d, m) {
      assert b[i] == leaves[i];
    }
    if ShownBy(b, d, m) {
      var j :| 0 <= j < |b| && b[j].Shows(d, m);
      assert j < i ==> a[j] == b[j];
    }
  }

  lemma HasMatchJoin(a: seq<Candidate>, b: seq<Candidate>, m: Match)
    ensures HasMatch(a + b, m) <==> HasMatch(a, m) || HasMatch(b, m)
  {
    var c := a + b;
    if HasMatch(a, m) {
      var i :| 0 <= i < |a| && MatchOf(a[i]) == m;
      assert c[i] == a[i];
    }
    if HasMatch(b, m) {
      var i :| 0 <= i < |b| && MatchOf(b[i]) == m;
      assert c[|a| + i] == b[i];
    }
    if HasMatch(c, m) {
      var i :| 0 <= i < |c| && MatchOf(c[i]) == m;
      assert if i < |a| then c[i] == a[i] else c[i] == b[i - |a|];
    }
  }

  /** The candidates of the visited leaves (eval.go:299-307). */
  method CollectMatches(mt: Tree, known: map<nat, bool>, ghost doc: nat) returns (cands: seq<Candidate>)
    requires mt.Ready(doc) && mt.Noted(known, doc) && mt.Decided(known, doc) && mt.Sat(doc)
    ensures forall m :: HasMatch(cands, m) <==> TreeShows(mt, doc, m)
  {
    hide Tree.Ready, Tree.Noted, Tree.Decided, Tree.Sat, HasMatch, ShownBy, Atom.Ready, Atom.Settled, Atom.Held, Atom.Shows;
    VisitedExact(mt, known, doc);
    var leaves := Visited(mt, known);
    cands := [];
    assert forall m :: HasMatch(cands, m) <==> ShownBy(leaves[..0], doc, m) by { NothingShown(leaves, doc); }
    for i := 0 to |leaves|
      invariant forall m :: HasMatch(cands, m) <==> ShownBy(leaves[..i], doc, m)
    {
      assert leaves[i] in Visible(mt, doc);
      var held := leaves[i].Held();
      forall m ensures HasMatch(cands + held, m) <==> ShownBy(leaves[..i + 1], doc, m) {
        leaves[i].SettledShows(doc, m);
        HasMatchJoin(cands, held, m);
        ShownByMore(leaves, i, doc, m);
      }
      cands := cands + held;
    }
    assert leaves[..|leaves|] == leaves;
  }

  lemma NothingShown(leaves: seq<Atom>, d: nat)
    ensures forall m :: !HasMatch([], m) && !ShownBy(leaves[..0], d, m)
  {
  }

  /** The matches that count for a document. */
  ghost function Shown(t: Tree, d: nat): Match -> bool {
    (m: Match) => TreeShows(t, d, m)
  }

  /** There is a match in the content. */
  ghost predicate ContentShown(shows: Match -> bool) {
    exists m :: shows(m) && !m.fileName
  }

  predicate Touches(m: Match, h: int) {
    2 * m.start <= h <= 2 * (m.start + m.size)
  }

  /** A match that is kept touches the half point: one in the content, if there are such. */
  ghost predicate ShownAt(shows: Match -> bool, h: int) {
    exists m :: shows(m) && (ContentShown(shows) ==> !m.fileName) && Touches(m, h)
  }

  /** The matches, merged: strictly apart, of one kind, and covering what the matches cover. */
  ghost predicate IsGathered(ms: seq<Candidate>, shows: Match -> bool) {
    && Separated(ms)
    && (forall i :: 0 <= i < |ms| ==> ms[i].fileName == !ContentShown(shows))
    && (forall h :: CoveredBy(ms, h) <==> ShownAt(shows, h))
    && (ms == [] <==> forall m :: !shows(m))
  }

  lemma CollectedContent(cands: seq<Candidate>, shows: Match -> bool)
    requires forall m :: HasMatch(cands, m) <==> shows(m)
    ensures AnyContent(cands) <==> ContentShown(shows)
    ensures cands == [] <==> forall m :: !shows(m)
  {
    if AnyContent(cands) {
      var i :| 0 <= i < |cands| && !cands[i].fileName;
      assert HasMatch(cands, MatchOf(cands[i]));
    }
    if ContentShown(shows) {
      var m :| shows(m) && !m.fileName;
      assert HasMatch(cands, m);
    }
    if cands != [] {
      assert HasMatch(cands, MatchOf(cands[0]));
    }
  }

  lemma CollectedCover(cands: seq<Candidate>, shows: Match -> bool, h: int)
    requires forall m :: HasMatch(cands, m) <==> shows(m)
    ensures CoveredBy(Kept(cands, AnyContent(cands)), h) <==> ShownAt(shows, h)
  {
    hide Kept;
    CollectedContent(cands, shows);
    var content := AnyContent(cands);
    var kept := Kept(cands, content);
    if CoveredBy(kept, h) {
      var i :| 0 <= i < |kept| && Covers(kept[i], h);
      assert kept[i] in kept;
      var j :| 0 <= j < |cands| && cands[j] == kept[i];
      assert HasMatch(cands, MatchOf(kept[i])) && Touches(MatchOf(kept[i]), h);
    }
    if ShownAt(shows, h) {
      var m :| shows(m) && (ContentShown(shows) ==> !m.fileName) && Touches(m, h);
      assert HasMatch(cands, m);
      var j :| 0 <= j < |cands| && MatchOf(cands[j]) == m;
      assert cands[j] in kept;
      var i :| 0 <= i < |kept| && kept[i] == cands[j];
      assert Covers(kept[i], h);
    }
  }

  /** The matches lie in the texts of the document. */
  ghost predicate ShownInside(shows: Match -> bool, name: seq<byte>, data: seq<byte>) {
    forall m :: shows(m) ==> 0 <= m.start && 0 <= m.size && m.start + m.size <= |if m.fileName then name else data|
  }

  /** gatherMatches. */
  method GatherDocument(mt: Tree, known: map<nat, bool>, ghost doc: nat, ghost name: seq<byte>, ghost data: seq<byte>)
    returns (res: seq<Candidate>)
    requires mt.Ready(doc) && mt.Noted(known, doc) && mt.Decided(known, doc) && mt.Sat(doc)
    requires ShownInside(Shown(mt, doc), name, data) && |name| <= MaxU32 && |data| <= MaxU32
    ensures IsGathered(res, Shown(mt, doc))
  {
    hide Tree.Ready, Tree.Noted, Tree.Decided, Tree.Sat, TreeShows, Separated, Kept, AnyContent, CoveredBy, ShownAt;
    ghost var shows := Shown(mt, doc);
    var cands := CollectMatches(mt, known, doc);
    forall i | 0 <= i < |cands| ensures End(cands[i]) <= MaxU32 {
      assert HasMatch(cands, MatchOf(cands[i]));
      assert shows(MatchOf(cands[i]));
    }
    res := GatherMatches(cands);
    CollectedContent(cands, shows);
    forall h ensures CoveredBy(res, h) <==> ShownAt(shows, h) {
      CollectedCover(cands, shows, h);
    }
  }

  lemma GatheredInside(ms: seq<Candidate>, shows: Match -> bool, name: seq<byte>, data: seq<byte>)
    requires IsGathered(ms, shows) && ShownInside(shows, name, data)
    ensures forall i :: 0 <= i < |ms| ==> End(ms[i]) <= |if ms[i].fileName then name else data|
  {
    hide Separated;
    forall i | 0 <= i < |ms| ensures End(ms[i]) <= |if ms[i].fileName then name else data| {
      assert Covers(ms[i], 2 * End(ms[i]));
      assert CoveredBy(ms, 2 * End(ms[i]));
      var m :| shows(m) && (ContentShown(shows) ==> !m.fileName) && Touches(m, 2 * End(ms[i]));
      assert !ContentShown(shows) ==> m.fileName;
    }
  }

  // ----- lines -----

  /** The texts of a document (contentProvider). */
  datatype Provider = Provider(name: nat -> seq<byte>, data: nat -> seq<byte>, newlines: nat -> seq<u32>)

  /** The lines of a document: its name, or lines of its content. */
  datatype Lines = InName(line: seq<byte>, fragments: seq<LineFragment>) | InContent(records: seq<LineMatch>)

  datatype FileMatch = FileMatch(doc: u32, lines: Lines)

  /** The texts are those of the documents the tree is about. */
  ghost predicate Provides(cp: Provider, t: Tree, n: nat) {
    forall d :: 0 <= d < n ==>
      && |cp.name(d)| <= MaxU32 && |cp.data(d)| <= MaxU32 && AreNewlines(cp.newlines(d), cp.data(d))
      && ShownInside(Shown(t, d), cp.name(d), cp.data(d))
  }

  /** A document without matches, say one found by its language, is shown by its whole name (eval.go:213-226). */
  ghost predicate IsAll(ms: seq<Candidate>, shows: Match -> bool, name: seq<byte>) {
    if forall m :: !shows(m) then |name| <= MaxU32 && ms == [Candidate(true, 0, 0, |name|)] else IsGathered(ms, shows)
  }

  /** All the matches are in the lines: in the name, or divided among the lines of the content. */
  ghost predicate IsFilled(lines: Lines, ms: seq<Candidate>, name: seq<byte>, data: seq<byte>) {
    if ms != [] && ms[0].fileName then
      && lines.InName? && lines.line == name && |lines.fragments| == |ms|
      && forall i :: 0 <= i < |ms| ==> lines.fragments[i] == LineFragment(ms[i].byteOffset, ms[i].byteOffset, ms[i].byteMatchSz)
    else
      lines.InContent? && exists groups :: Divided(lines.records, groups, ms, data)
  }

  /** The lines show exactly these matches, merged. */
  ghost predicate IsShown(lines: Lines, shows: Match -> bool, name: seq<byte>, data: seq<byte>) {
    exists ms :: IsAll(ms, shows, name) && IsFilled(lines, ms, name, data)
  }

  /** It does not matter how the matches are described. */
  lemma SameShown(lines: Lines, shows: Match -> bool, shows': Match -> bool, name: seq<byte>, data: seq<byte>)
    requires IsShown(lines, shows, name, data) && forall m :: shows(m) <==> shows'(m)
    ensures IsShown(lines, shows', name, data)
  {
    hide Separated, IsFilled, CoveredBy;
    var ms :| IsAll(ms, shows, name) && IsFilled(lines, ms, name, data);
    assert ContentShown(shows) <==> ContentShown(shows');
    forall h ensures ShownAt(shows, h) <==> ShownAt(shows', h) {
    }
    assert IsAll(ms, shows', name);
  }

  /** fillMatches. */
  method FillMatches(ms: seq<Candidate>, name: seq<byte>, nl: seq<u32>, data: seq<byte>) returns (lines: Lines)
    requires ms != [] && Separated(ms) && |data| <= MaxU32 && AreNewlines(nl, data)
    requires !ms[0].fileName ==> InFile(ms, data)
    ensures IsFilled(lines, ms, name, data)
  {
    hide AreNewlines, Separated, InFile, Divided;
    if ms[0].fileName {
      var fragments := [];
      for i := 0 to |ms|
        invariant |fragments| == i
        invariant forall j :: 0 <= j < i ==> fragments[j] == LineFragment(ms[j].byteOffset, ms[j].byteOffset, ms[j].byteMatchSz)
      {
        fragments := fragments + [LineFragment(ms[i].byteOffset, ms[i].byteOffset, ms[i].byteMatchSz)];
      }
      return InName(name, fragments);
    }
    var records := FillContentMatches(ms, nl, data);
    return InContent(records);
  }

  /** What is shown of a document that matches: the merged matches of the leaves that count. */
  method ShowDocument(mt: Tree, known: map<nat, bool>, doc: u32, cp: Provider, ghost n: nat) returns (fm: FileMatch)
    requires mt.Ready(doc) && mt.Noted(known, doc) && mt.Decided(known, doc) && mt.Sat(doc)
    requires doc < n && Provides(cp, mt, n)
    ensures fm.doc == doc && IsShown(fm.lines, Shown(mt, doc), cp.name(doc), cp.data(doc))
  {
    hide Tree.Ready, Tree.Noted, Tree.Decided, Tree.Sat, TreeShows, IsFilled, ShownInside, AreNewlines;
    var name, data := cp.name(doc), cp.data(doc);
    ghost var shows := Shown(mt, doc);
    var ms := GatherDocument(mt, known, doc, name, data);
    GatheredInside(ms, shows, name, data);
    if |ms| == 0 {
      ms := [Candidate(true, 0, 0, |name|)];
    }
    assert IsAll(ms, shows, name);
    var lines := FillMatches(ms, name, cp.newlines(doc), data);
    fm := FileMatch(doc, lines);
  }
}
