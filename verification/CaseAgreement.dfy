/**
 * Equal up to case means three things in the source: on one fold cycle for the trigram index (bits.go:23-44) and for
 * the regular expression engine, and equal in lower case for the comparison with the text (bits.go:89-107). Here is
 * where these part.
 */
module CaseAgreement {
  import opened Machine
  import opened Utf8
  import opened Ngrams
  import opened Corpus
  import opened DeltaCodec
  import opened CaseFolding
  import opened TrigramLookup
  import opened NgramSearch
  import opened ContentMatch
  import opened Query
  import opened Simplify
  import opened QueryMap
  import P = Postings
  import RQ = RegexpQuery

  // ----- the engine and the prefilter -----

  /** The engine: exact, or along fold cycles under `(?i)`, for the whole expression or for one literal. */
  ghost function EngineOver(tables: CaseTables, caseSensitive: bool, other: RQ.OtherOps): RQ.Engine {
    RQ.Engine((fold: bool, a: Rune, b: Rune) => if caseSensitive && !fold then a == b else SameFold(tables.fold, a, b),
              (op: nat, text: seq<Rune>, i: int, j: int) => other(caseSensitive, op, text, i, j))
  }

  /** The comparison of substrings. */
  function SubstringEqual(tables: CaseTables, caseSensitive: bool): (Rune, Rune) -> bool {
    (a: Rune, b: Rune) => if caseSensitive then a == b else tables.lower(a) == tables.lower(b)
  }

  /** All runes on the fold cycle of `a` have its lower case. */
  ghost predicate CycleIsLower(tables: CaseTables, a: Rune) {
    forall x: Rune :: Scalar(x) && SameFold(tables.fold, a, x) ==> tables.lower(a) == tables.lower(x)
  }

  /** The rune has no case variants. */
  ghost predicate Caseless(tables: CaseTables, a: Rune) {
    forall x: Rune :: Scalar(x) && SameFold(tables.fold, a, x) ==> a == x
  }

  lemma SameFoldReflexive(fold: Rune -> Rune, a: Rune)
    ensures SameFold(fold, a, a)
  {
    assert Folded(fold, a, 0) == a;
  }

  /** Case does not matter: no match is filtered out, ever, exactly when the cycles of the distilled literals stay in lower case. */
  lemma FoldedPrefilterIff(tables: CaseTables, other: RQ.OtherOps, min: nat, p: (seq<Rune>, bool) -> bool)
    requires forall rs, fold :: p(rs, fold) ==> Scalars(rs) && |EncodeAll(rs)| >= min
    ensures RQ.AlwaysPasses(EngineOver(tables, false, other), SubstringEqual(tables, false), min, p) <==>
            forall rs, fold, k :: p(rs, fold) && 0 <= k < |rs| ==> CycleIsLower(tables, rs[k])
  {
    hide EncodeAll, RQ.AlwaysPasses;
    var e, near := EngineOver(tables, false, other), SubstringEqual(tables, false);
    forall fold, a: Rune ensures e.same(fold, a, a) { SameFoldReflexive(tables.fold, a); }
    RQ.PrefilterSoundIff(e, near, min, p);
    forall rs: seq<Rune>, fold: bool
      ensures RQ.StaysNear(e, near, rs, fold) <==> forall k :: 0 <= k < |rs| ==> CycleIsLower(tables, rs[k])
    {
      hide SameFold;
    }
  }

  /** Case matters: the same, exactly when literals with the fold-case flag have no case variants. */
  lemma ExactPrefilterIff(tables: CaseTables, other: RQ.OtherOps, min: nat, p: (seq<Rune>, bool) -> bool)
    requires forall rs, fold :: p(rs, fold) ==> Scalars(rs) && |EncodeAll(rs)| >= min
    ensures RQ.AlwaysPasses(EngineOver(tables, true, other), SubstringEqual(tables, true), min, p) <==>
            forall rs, k :: p(rs, true) && 0 <= k < |rs| ==> Caseless(tables, rs[k])
  {
    hide EncodeAll, RQ.AlwaysPasses;
    var e, near := EngineOver(tables, true, other), SubstringEqual(tables, true);
    forall fold, a: Rune ensures e.same(fold, a, a) { SameFoldReflexive(tables.fold, a); }
    RQ.PrefilterSoundIff(e, near, min, p);
    forall rs: seq<Rune>
      ensures RQ.StaysNear(e, near, rs, false)
      ensures RQ.StaysNear(e, near, rs, true) <==> forall k :: 0 <= k < |rs| ==> Caseless(tables, rs[k])
    {
      hide SameFold;
    }
  }

  const LongS: Rune := 0x17f

  /** `(?i)foos` matches "foo" and U+017F, whose lower case is not s, and the prefilter drops that text. */
  lemma LongSMissed(tables: CaseTables, other: RQ.OtherOps)
    requires SameFold(tables.fold, 0x73, LongS) && tables.lower(0x73) != tables.lower(LongS)
    ensures var foos: seq<Rune> := [0x66, 0x6f, 0x6f, 0x73];
            exists text: seq<byte> ::
              && RQ.MatchesSomewhere(EngineOver(tables, false, other), Literal(foos, false), Runes(text))
              && !Holds(RQ.RegexpToQuery(Literal(foos, false), 3), RQ.OnText(SubstringEqual(tables, false), Runes(text)))
  {
    hide EncodeAll;
    var foos: seq<Rune> := [0x66, 0x6f, 0x6f, 0x73];
    var e := EngineOver(tables, false, other);
    forall fold, a: Rune ensures e.same(fold, a, a) { SameFoldReflexive(tables.fold, a); }
    LongEnough(foos);
    var text := RQ.LiteralLost(e, SubstringEqual(tables, false), 3, foos, false, 3, LongS);
  }

  /**
   * A single expression can be safe although one of its literals is not: `(?i)foos|foo` with U+017F. What one
   * alternative misses the other finds.
   */
  lemma AlternativesCover(tables: CaseTables, other: RQ.OtherOps, text: seq<byte>)
    requires CycleIsLower(tables, 0x66) && CycleIsLower(tables, 0x6f)
    requires forall x: Rune :: Scalar(x) && (SameFold(tables.fold, 0x73, x) || SameFold(tables.fold, LongS, x)) ==>
               tables.lower(x) == tables.lower(0x73) || tables.lower(x) == tables.lower(LongS)
    ensures var re := Alternate([Literal([0x66, 0x6f, 0x6f, 0x73], false), Literal([0x66, 0x6f, 0x6f, LongS], false)]);
            RQ.MatchesSomewhere(EngineOver(tables, false, other), re, Runes(text)) ==>
              Holds(RQ.RegexpToQuery(re, 3), RQ.OnText(SubstringEqual(tables, false), Runes(text)))
  {
    hide EncodeAll, Runes, Tokens, SameFold;
    var a, b: seq<Rune> := [0x66, 0x6f, 0x6f, 0x73], [0x66, 0x6f, 0x6f, LongS];
    var re := Alternate([Literal(a, false), Literal(b, false)]);
    var e, near, rs := EngineOver(tables, false, other), SubstringEqual(tables, false), Runes(text);
    if RQ.MatchesSomewhere(e, re, rs) {
      var i, j :| RQ.Matches(e, re, rs, i, j);
      var k :| 0 <= k < 2 && RQ.Matches(e, re.subs[k], rs, i, j);
      RunesScalar(text);
      var lit := if k == 0 then a else b;
      assert RQ.RunesHere(e, false, lit, rs, i);
      forall n | 0 <= n < 4 ensures e.same(false, lit[n], rs[i + n]) {}
      assert tables.lower(rs[i + 0]) == tables.lower(0x66) && tables.lower(rs[i + 1]) == tables.lower(0x6f)
          && tables.lower(rs[i + 2]) == tables.lower(0x6f) by { assert e.same(false, lit[0], rs[i + 0]) && e.same(false, lit[1], rs[i + 1]) && e.same(false, lit[2], rs[i + 2]); }
      assert tables.lower(rs[i + 3]) == tables.lower(0x73) || tables.lower(rs[i + 3]) == tables.lower(LongS) by { assert e.same(false, lit[3], rs[i + 3]); }
      var found := if tables.lower(rs[i + 3]) == tables.lower(0x73) then a else b;
      assert RQ.NearHere(near, found, rs, i);
      EitherHolds(near, a, b, found, rs, i);
    }
  }

  lemma EitherHolds(near: (Rune, Rune) -> bool, a: seq<Rune>, b: seq<Rune>, found: seq<Rune>, text: seq<Rune>, i: int)
    requires Scalars(a) && Scalars(b) && |a| == |b| == 4 && (found == a || found == b) && RQ.NearHere(near, found, text, i)
    ensures Holds(RQ.RegexpToQuery(Alternate([Literal(a, false), Literal(b, false)]), 3), RQ.OnText(near, text))
  {
    hide EncodeAll, Runes, RQ.NearHere, Simplified;
    var re, env := Alternate([Literal(a, false), Literal(b, false)]), RQ.OnText(near, text);
    LongEnough(a);
    LongEnough(b);
    RunesOfEncodeAll(found);
    var qs := RQ.ToQueries(re.subs, 3);
    assert qs[0] == RQ.LiteralQuery(a) && qs[1] == RQ.LiteralQuery(b);
    assert Holds(RQ.LiteralQuery(found), env);
    assert Holds(qs[if found == a then 0 else 1], env);
    assert RQ.ToQuery(re, 3) == Or(qs);
    assert AllAtoms(Or(qs), (q: Q) => Vacuous(q) ==> env(q)) by {
      assert AllAtoms(qs[0], (q: Q) => Vacuous(q) ==> env(q)) && AllAtoms(qs[1], (q: Q) => Vacuous(q) ==> env(q));
    }
    SimplifyMeaningHere(Or(qs), env);
  }

  /** `(?i)foo` in a case sensitive query: the flag goes with FOO, but not into the substring, which "foo" does not contain. */
  lemma FoldFlagMissed(tables: CaseTables, other: RQ.OtherOps)
    requires SameFold(tables.fold, 0x46, 0x66)
    ensures var upper: seq<Rune> := [0x46, 0x4f, 0x4f];
            exists text: seq<byte> ::
              && RQ.MatchesSomewhere(EngineOver(tables, true, other), Literal(upper, true), Runes(text))
              && !Holds(RQ.RegexpToQuery(Literal(upper, true), 3), RQ.OnText(SubstringEqual(tables, true), Runes(text)))
  {
    hide EncodeAll;
    var upper: seq<Rune> := [0x46, 0x4f, 0x4f];
    var e := EngineOver(tables, true, other);
    forall fold, a: Rune ensures e.same(fold, a, a) { SameFoldReflexive(tables.fold, a); }
    LongEnough(upper);
    var text := RQ.LiteralLost(e, SubstringEqual(tables, true), 3, upper, true, 0, 0x66);
  }

  /** Every rune takes at least a byte. */
  lemma {:induction false} LongEnough(rs: seq<Rune>)
    ensures |EncodeAll(rs)| >= |rs|
  {
    if rs != [] {
      LongEnough(rs[1..]);
    }
  }

  // ----- the comparison and the index -----

  /** All runes with the lower case of `a` are on its fold cycle. */
  ghost predicate LowerOnCycle(tables: CaseTables, a: Rune) {
    forall x: Rune :: Scalar(x) && tables.lower(a) == tables.lower(x) ==> SameFold(tables.fold, a, x)
  }

  ghost predicate AllOnCycle(n: Needle) {
    forall i :: 0 <= i < n.Length() ==> LowerOnCycle(n.tables, Runes(n.pattern)[i])
  }

  ghost predicate Stands(n: Needle, text: seq<byte>, r: int) {
    RunesAt(Matching(false, n.tables.fold), Tokens(n.pattern), Tokens(text), r)
  }

  lemma OnCycleFolds(n: Needle, text: seq<byte>)
    requires AllOnCycle(n)
    ensures n.tables.LowerFolds(Runes(n.pattern), Runes(text))
  {
    hide Tokens, Runes, SameFold;
    RunesScalar(text);
    assert |Runes(n.pattern)| == n.Length();
  }

  /** The pattern with one rune replaced, or several, all by runes of the same lower case, matches. */
  lemma Respelled(n: Needle, runes: seq<Rune>) returns (text: seq<byte>)
    requires !n.caseSensitive && |runes| == n.Length() && Scalars(runes)
    requires forall i :: 0 <= i < |runes| ==> n.tables.lower(Runes(n.pattern)[i]) == n.tables.lower(runes[i])
    ensures Runes(text) == runes && n.MatchAt(text, 0)
  {
    hide Tokens, EncodeAll;
    text := EncodeAll(runes);
    RunesOfEncodeAll(runes);
    assert |Runes(text)| == |Tokens(text)|;
    forall i | 0 <= i < n.Length() ensures n.tables.lower(Tokens(n.pattern)[i].rune) == n.tables.lower(Tokens(text)[0 + i].rune) {
      assert Runes(text)[i] == Tokens(text)[i].rune && Runes(n.pattern)[i] == Tokens(n.pattern)[i].rune;
    }
  }

  /** All matches up to case, in all texts, are matches along the fold cycles, exactly when lower case stays on the cycle. */
  lemma MatchesFoldIff(n: Needle)
    requires !n.caseSensitive
    ensures (forall text: seq<byte>, r: int :: n.MatchAt(text, r) ==> Stands(n, text, r)) <==> AllOnCycle(n)
  {
    hide Tokens, Runes, Needle.MatchAt, RunesAt, SameFold;
    if AllOnCycle(n) {
      forall text: seq<byte>, r: int | n.MatchAt(text, r) ensures Stands(n, text, r) {
        OnCycleFolds(n, text);
        MatchIsRunes(n, text, r);
      }
    } else {
      var i :| 0 <= i < n.Length() && !LowerOnCycle(n.tables, Runes(n.pattern)[i]);
      var a := Runes(n.pattern)[i];
      var x: Rune :| Scalar(x) && n.tables.lower(a) == n.tables.lower(x) && !SameFold(n.tables.fold, a, x);
      RunesScalar(n.pattern);
      var text := Respelled(n, Runes(n.pattern)[i := x]);
      NotStanding(n, text, i);
    }
  }

  lemma NotStanding(n: Needle, text: seq<byte>, i: nat)
    requires i < n.Length() == |Tokens(text)| && !SameFold(n.tables.fold, Runes(n.pattern)[i], Runes(text)[i])
    ensures !Stands(n, text, 0)
  {
    hide Tokens, SameFold;
    assert !Matching(false, n.tables.fold).Same(Tokens(n.pattern)[i].rune, Tokens(text)[0 + i].rune);
  }

  /** In whatever corpus, every match up to case is offered by the index. */
  ghost predicate NeverMissed(n: Needle)
    requires n.Length() >= 3
  {
    forall t: PostingTable, files: seq<seq<byte>>, d, r ::
      t.Holds(Tokenize(files)) && 0 <= d < |files| && n.MatchAt(files[d], r) ==>
        Offered(t, Matching(false, n.tables.fold), Tokens(n.pattern), Tokens(files[d]), r)
  }

  /** Runes of the pattern on one cycle have the same lower case. */
  ghost predicate Unmixed(n: Needle) {
    n.tables.FoldsLower(Runes(n.pattern), Runes(n.pattern))
  }

  /** A table for any corpus. */
  ghost function TableOf(docs: Docs): (t: PostingTable)
    ensures t.Holds(docs)
  {
    Blobs(map ng: Ngram | 0 <= ng < 0x8000_0000_0000_0000 :: Deltas(CorpusHits(docs, ng), 0))
  }

  lemma {:induction false} TotalZero(t: PostingTable, vs: set<Ngram>)
    requires forall v :: v in vs ==> t.Frequency(v) == 0
    ensures Total(t, vs) == 0
    decreases |vs|
  {
    hide PostingTable.Frequency;
    if vs != {} {
      var v: Ngram :| v in vs;
      TotalRemove(t, vs, v);
      TotalZero(t, vs - {v});
    }
  }

  /** A trigram that stands nowhere has no frequency. */
  lemma NowhereIsZero(t: PostingTable, m: Matching, pat: seq<Token>, docs: Docs, i: nat)
    requires t.Holds(docs) && i + 3 <= |pat| && forall d, q :: 0 <= d < |docs| ==> !TrigramAt(m, pat, i, docs[d], q)
    ensures Total(t, VariantSet(m, pat, i)) == 0
  {
    hide CorpusHits, Start, Pack, IsTrigram, TrigramAt, PostingTable.Holds, PostingTable.Frequency, Total;
    forall v: Ngram | v in VariantSet(m, pat, i) ensures t.Frequency(v) == 0 {
      CorpusHitsExact(docs, v);
      FrequencyZero(t, docs, v);
      if CorpusHits(docs, v) != [] {
        var p := CorpusHits(docs, v)[0];
        assert p in CorpusHits(docs, v);
        var d: nat :| HitIn(docs, d, p, v);
        TrigramIff(m, pat, i, docs[d], p - Start(docs, d));
        assert false;
      }
    }
    TotalZero(t, VariantSet(m, pat, i));
  }

  /** Nothing is offered of a pattern with a trigram that stands nowhere. */
  lemma NothingOffered(t: PostingTable, m: Matching, pat: seq<Token>, text: seq<byte>, k: nat)
    requires t.Holds(Tokenize([text])) && k + 3 <= |pat| && forall q :: !TrigramAt(m, pat, k, Tokens(text), q)
    ensures forall r :: !Offered(t, m, pat, Tokens(text), r)
  {
    hide Tokens, TrigramAt, PostingTable.Holds, AreRarest, VariantSet, Total;
    NowhereIsZero(t, m, pat, Tokenize([text]), k);
    assert FrequenciesOf(t, m, pat)[k] == 0;
  }

  /** The text has no rune on the cycle of the i-th rune of the pattern, so none of the trigrams with it. */
  lemma OffCycle(n: Needle, text: seq<byte>, i: nat) returns (k: nat)
    requires n.Length() >= 3 && i < n.Length()
    requires forall j :: 0 <= j < |Runes(text)| ==> !SameFold(n.tables.fold, Runes(n.pattern)[i], Runes(text)[j])
    ensures k + 3 <= n.Length() && forall q :: !TrigramAt(Matching(false, n.tables.fold), Tokens(n.pattern), k, Tokens(text), q)
  {
    hide Tokens, SameFold;
    var m, pat, ts := Matching(false, n.tables.fold), Tokens(n.pattern), Tokens(text);
    k := if i + 3 <= |pat| then i else |pat| - 3;
    forall j | 0 <= j < |ts| ensures !m.Same(pat[i].rune, ts[j].rune) {
      assert Runes(n.pattern)[i] == pat[i].rune && Runes(text)[j] == ts[j].rune;
    }
  }

  /** The pattern with all runes on one cycle replaced. */
  ghost function Replaced(fold: Rune -> Rune, rs: seq<Rune>, a: Rune, x: Rune): (r: seq<Rune>)
    ensures |r| == |rs| && forall i :: 0 <= i < |rs| ==> r[i] == if SameFold(fold, a, rs[i]) then x else rs[i]
  {
    seq(|rs|, i requires 0 <= i < |rs| => if SameFold(fold, a, rs[i]) then x else rs[i])
  }

  /**
   * No match up to case is ever missed by the index if lower case stays on the cycles of the pattern's runes; and only
   * then, if no cycle that the pattern uses has runes of it with different lower case.
   */
  lemma NeverMissedIff(n: Needle)
    requires !n.caseSensitive && n.Length() >= 3
    ensures AllOnCycle(n) ==> NeverMissed(n)
    ensures Unmixed(n) && NeverMissed(n) ==> AllOnCycle(n)
  {
    hide Tokens, Runes, Needle.MatchAt, RunesAt, SameFold, Offered, PostingTable.Holds;
    if AllOnCycle(n) {
      forall t: PostingTable, files: seq<seq<byte>>, d, r |
        t.Holds(Tokenize(files)) && 0 <= d < |files| && n.MatchAt(files[d], r)
        ensures Offered(t, Matching(false, n.tables.fold), Tokens(n.pattern), Tokens(files[d]), r)
      {
        OnCycleFolds(n, files[d]);
        MatchIsRunes(n, files[d], r);
        PatternOffered(t, Matching(false, n.tables.fold), Tokens(n.pattern), Tokenize(files), d, r);
      }
    } else if Unmixed(n) {
      var i :| 0 <= i < n.Length() && !LowerOnCycle(n.tables, Runes(n.pattern)[i]);
      MissedSomewhere(n, i);
    }
  }

  lemma MissedSomewhere(n: Needle, i: nat)
    requires !n.caseSensitive && n.Length() >= 3 && Unmixed(n) && i < n.Length() && !LowerOnCycle(n.tables, Runes(n.pattern)[i])
    ensures !NeverMissed(n)
  {
    hide Tokens, Runes, Needle.MatchAt, RunesAt, SameFold, Offered, PostingTable.Holds;
    var rs := Runes(n.pattern);
    var a := rs[i];
    var x: Rune :| Scalar(x) && n.tables.lower(a) == n.tables.lower(x) && !SameFold(n.tables.fold, a, x);
    RunesScalar(n.pattern);
    var runes := Replaced(n.tables.fold, rs, a, x);
    var text := Respelled(n, runes);
    var t := TableOf(Tokenize([text]));
    var k := OffCycle(n, text, i);
    NothingOffered(t, Matching(false, n.tables.fold), Tokens(n.pattern), text, k);
    assert [text][0] == text;
    assert !Offered(t, Matching(false, n.tables.fold), Tokens(n.pattern), Tokens([text][0]), 0);
  }

  lemma SameFoldTransitive(fold: Rune -> Rune, a: Rune, b: Rune, c: Rune)
    requires SameFold(fold, a, b) && SameFold(fold, b, c)
    ensures SameFold(fold, a, c)
  {
    var i: nat :| Folded(fold, a, i) == b;
    var j: nat :| Folded(fold, b, j) == c;
    FoldedSum(fold, a, i, j);
  }

  /** The trigrams of a pattern on one cycle all have the same variants. */
  lemma OneCycleVariants(m: Matching, pat: seq<Token>, i: nat)
    requires !m.caseSensitive && |pat| >= 3 && i + 3 <= |pat|
    requires forall j, k :: 0 <= j < |pat| && 0 <= k < |pat| ==> SameFold(m.fold, pat[j].rune, pat[k].rune)
    ensures VariantSet(m, pat, i) == VariantSet(m, pat, 0)
  {
    hide SameFold, Pack;
    forall j, k, x: Rune | 0 <= j < |pat| && 0 <= k < |pat| && SameFold(m.fold, pat[j].rune, x) ensures SameFold(m.fold, pat[k].rune, x) {
      SameFoldTransitive(m.fold, pat[k].rune, pat[j].rune, x);
    }
    assert forall j, k, x: Rune :: 0 <= j < |pat| && 0 <= k < |pat| && m.Same(pat[j].rune, x) ==> m.Same(pat[k].rune, x);
    forall v: Ngram ensures IsTrigram(m, pat, i, v) <==> IsTrigram(m, pat, 0, v) {
      OneCycleTrigram(m, pat, i, 0, v);
      OneCycleTrigram(m, pat, 0, i, v);
    }
  }

  lemma OneCycleTrigram(m: Matching, pat: seq<Token>, i: nat, j: nat, v: Ngram)
    requires i + 3 <= |pat| && j + 3 <= |pat|
    requires forall j, k, x: Rune :: 0 <= j < |pat| && 0 <= k < |pat| && m.Same(pat[j].rune, x) ==> m.Same(pat[k].rune, x)
    ensures IsTrigram(m, pat, i, v) ==> IsTrigram(m, pat, j, v)
  {
    hide Matching.Same, Pack;
    if IsTrigram(m, pat, i, v) {
      var a: Rune, b: Rune, c: Rune :|
        m.Same(pat[i].rune, a) && m.Same(pat[i + 1].rune, b) && m.Same(pat[i + 2].rune, c) && v == Pack(a, b, c);
      assert m.Same(pat[j].rune, a) && m.Same(pat[j + 1].rune, b) && m.Same(pat[j + 2].rune, c);
    }
  }

  /** Where all trigrams are equally frequent the outermost two are read. */
  lemma OutermostRead(fs: seq<int>) returns (first: nat, last: nat)
    requires |fs| >= 1 && forall i :: 0 <= i < |fs| ==> fs[i] == fs[0]
    ensures AreRarest(fs, first, last) && first == 0 && (last == 0 || last == |fs| - 1)
  {
    first, last := 0, if fs[0] <= MaxU32 then |fs| - 1 else 0;
    assert Rarest(fs, first, last);
  }

  /**
   * A mixed pattern that is never missed although one of its runes has lower case off its cycle: three long s, an s,
   * three long s. Only the outer runes are ever looked up.
   */
  lemma MixedNeverMissed(n: Needle)
    requires !n.caseSensitive && Runes(n.pattern) == [LongS, LongS, LongS, 0x73, LongS, LongS, LongS]
    requires SameFold(n.tables.fold, LongS, 0x73) && SameFold(n.tables.fold, 0x73, LongS) && LowerOnCycle(n.tables, LongS)
    ensures n.Length() >= 3 && NeverMissed(n)
  {
    hide Tokens, SameFold, Offered, PostingTable.Holds;
    var m, pat := Matching(false, n.tables.fold), Tokens(n.pattern);
    assert |pat| == 7 && forall i :: 0 <= i < 7 ==> pat[i].rune == Runes(n.pattern)[i];
    SameFoldReflexive(m.fold, LongS);
    SameFoldReflexive(m.fold, 0x73);
    forall t: PostingTable, files: seq<seq<byte>>, d, r |
      t.Holds(Tokenize(files)) && 0 <= d < |files| && n.MatchAt(files[d], r)
      ensures Offered(t, m, pat, Tokens(files[d]), r)
    {
      OuterOffered(n, t, files, d, r);
    }
  }

  lemma OuterOffered(n: Needle, t: PostingTable, files: seq<seq<byte>>, d: nat, r: int)
    requires !n.caseSensitive && n.Length() == 7
    requires forall j, k :: 0 <= j < 7 && 0 <= k < 7 ==> SameFold(n.tables.fold, Tokens(n.pattern)[j].rune, Tokens(n.pattern)[k].rune)
    requires forall i :: 0 <= i < 7 && i != 3 ==> LowerOnCycle(n.tables, Tokens(n.pattern)[i].rune)
    requires t.Holds(Tokenize(files)) && d < |files| && n.MatchAt(files[d], r)
    ensures Offered(t, Matching(false, n.tables.fold), Tokens(n.pattern), Tokens(files[d]), r)
  {
    hide Tokens, SameFold, PostingTable.Holds, VariantSet, Total, AreRarest;
    var m, pat, ts, docs := Matching(false, n.tables.fold), Tokens(n.pattern), Tokens(files[d]), Tokenize(files);
    RunesScalar(files[d]);
    forall i | 0 <= i < 7 && i != 3 ensures m.Same(pat[i].rune, ts[r + i].rune) {
      assert Runes(files[d])[r + i] == ts[r + i].rune && LowerOnCycle(n.tables, pat[i].rune);
      assert n.tables.lower(pat[i].rune) == n.tables.lower(ts[r + i].rune);
    }
    assert TrigramAt(m, pat, 0, ts, r + 0) && TrigramAt(m, pat, 4, ts, r + 4) by {
      assert m.Same(pat[0].rune, ts[r + 0].rune) && m.Same(pat[1].rune, ts[r + 1].rune) && m.Same(pat[2].rune, ts[r + 2].rune);
      assert m.Same(pat[4].rune, ts[r + 4].rune) && m.Same(pat[5].rune, ts[r + 5].rune) && m.Same(pat[6].rune, ts[r + 6].rune);
    }
    OccursIsFrequent(t, m, pat, docs, d, 0, r);
    var fs := FrequenciesOf(t, m, pat);
    forall i | 0 <= i < 5 ensures fs[i] == fs[0] > 0 {
      OneCycleVariants(m, pat, i);
    }
    var first, last := OutermostRead(fs);
    assert BothAt(m, pat, first, last, ts, r);
  }

  const DottedI: Rune := 0x130

  lemma FixedPoint(fold: Rune -> Rune, a: Rune, x: Rune)
    requires Cycles(fold) && fold(x) == x && a != x
    ensures !SameFold(fold, a, x)
  {
    if SameFold(fold, a, x) {
      var n: nat :| Folded(fold, a, n) == x;
      assert ComesBack(fold, a);
      var k :| Period(fold, a, k);
      var j := OnePeriod(fold, a, k, n);
      FoldedSum(fold, a, j, k - j);
      StaysPut(fold, x, k - j);
      assert false;
    }
  }

  lemma {:induction false} StaysPut(fold: Rune -> Rune, x: Rune, n: nat)
    requires fold(x) == x
    ensures Folded(fold, x, n) == x
  {
    if n > 0 { StaysPut(fold, x, n - 1); }
  }

  /** Up to case "abi" equals "ab" and U+0130, whose lower case is i; the index never offers it. */
  lemma DottedIMissed(n: Needle, text: seq<byte>, t: PostingTable)
    requires n.tables.Ok() && !n.caseSensitive && Runes(n.pattern) == [0x61, 0x62, 0x69] && Runes(text) == [0x61, 0x62, DottedI]
    requires n.tables.lower(DottedI) == n.tables.lower(0x69) && n.tables.fold(DottedI) == DottedI
    requires t.Holds(Tokenize([text]))
    ensures n.MatchAt(text, 0) && n.Length() == 3
    ensures forall r :: !Offered(t, Matching(false, n.tables.fold), Tokens(n.pattern), Tokens(text), r)
  {
    hide Tokens, SameFold, Offered, PostingTable.Holds, Cycles;
    assert n.Length() == |Runes(n.pattern)| && |Tokens(text)| == |Runes(text)|;
    forall i | 0 <= i < 3 ensures n.tables.lower(Tokens(n.pattern)[i].rune) == n.tables.lower(Tokens(text)[0 + i].rune) {
      assert Runes(text)[i] == Tokens(text)[i].rune && Runes(n.pattern)[i] == Tokens(n.pattern)[i].rune;
    }
    FixedPoint(n.tables.fold, 0x69, DottedI);
    var m, pat := Matching(false, n.tables.fold), Tokens(n.pattern);
    assert pat[2].rune == Runes(n.pattern)[2] && Tokens(text)[2].rune == Runes(text)[2];
    assert !m.Same(pat[2].rune, Tokens(text)[2].rune);
    NothingOffered(t, m, pat, text, 0);
  }
}
