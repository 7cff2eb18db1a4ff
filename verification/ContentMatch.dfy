/** Comparing a candidate with the text (candidateMatch.matchContent, matchiter.go; toLower and caseFoldingEqualsRunes, bits.go). */
module ContentMatch {
  import opened Machine
  import opened Utf8
  import opened Corpus
  import opened CaseFolding
  import opened NgramSearch
  import opened RuneLookup

  /** unicode.SimpleFold and unicode.ToLower. */
  datatype CaseTables = CaseTables(fold: Rune -> Rune, lower: Rune -> Rune) {

    /** Folding comes back, and lower case has an encoding. */
    ghost predicate Ok() {
      Cycles(fold) && forall r: Rune :: Scalar(r) ==> Scalar(lower(r))
    }

    /** Runes of the text that are equal to one of `rs` in lower case are on its fold cycle. */
    ghost predicate LowerFolds(rs: seq<Rune>, text: seq<Rune>) {
      forall i, j :: 0 <= i < |rs| && 0 <= j < |text| && lower(rs[i]) == lower(text[j]) ==> SameFold(fold, rs[i], text[j])
    }

    /** Runes of the text that are on the fold cycle of one of `rs` are equal to it in lower case. */
    ghost predicate FoldsLower(rs: seq<Rune>, text: seq<Rune>) {
      forall i, j :: 0 <= i < |rs| && 0 <= j < |text| && SameFold(fold, rs[i], text[j]) ==> lower(rs[i]) == lower(text[j])
    }

    /** The text has no other rune of the fold cycles of `rs`. */
    ghost predicate FoldsExact(rs: seq<Rune>, text: seq<Rune>) {
      forall i, j :: 0 <= i < |rs| && 0 <= j < |text| && SameFold(fold, rs[i], text[j]) ==> rs[i] == text[j]
    }
  }

  function LoweredBytes(lower: Rune -> Rune, rs: seq<Rune>): seq<byte> {
    if rs == [] then [] else Encode(lower(rs[0])) + LoweredBytes(lower, rs[1..])
  }

  lemma {:induction false} LoweredAppend(lower: Rune -> Rune, rs: seq<Rune>, r: Rune)
    ensures LoweredBytes(lower, rs + [r]) == LoweredBytes(lower, rs) + Encode(lower(r))
  {
    if rs == [] {
      assert (rs + [r])[1..] == [];
    } else {
      assert (rs + [r])[1..] == rs[1..] + [r];
      LoweredAppend(lower, rs[1..], r);
    }
  }

  /** toLower: the runes of the text in lower case, encoded again. */
  method ToLower(lower: Rune -> Rune, text: seq<byte>) returns (out: seq<byte>)
    ensures out == LoweredBytes(lower, Runes(text))
  {
    hide Encode;
    out := [];
    var rest := text;
    ghost var k := 0;
    while rest != []
      invariant k <= |Tokens(text)| && rest == Suffix(text, k)
      invariant out == LoweredBytes(lower, Runes(text)[..k])
      decreases |rest|
    {
      SuffixTokens(text, k);
      SuffixStep(text, k);
      var t := Decode(rest);
      LoweredAppend(lower, Runes(text)[..k], t.rune);
      assert Runes(text)[..k + 1] == Runes(text)[..k] + [t.rune];
      out := out + Encode(lower(t.rune));
      rest := rest[t.size..];
      k := k + 1;
    }
    SuffixTokens(text, k);
    assert Runes(text)[..k] == Runes(text);
  }

  /** The lowered text decodes to the lowered runes. */
  lemma {:induction false} LoweredRunes(lower: Rune -> Rune, rs: seq<Rune>)
    requires forall r: Rune :: Scalar(r) ==> Scalar(lower(r))
    requires Scalars(rs)
    ensures |Tokens(LoweredBytes(lower, rs))| == |rs|
    ensures forall i :: 0 <= i < |rs| ==> Tokens(LoweredBytes(lower, rs))[i].rune == lower(rs[i])
  {
    hide Encode, Decode;
    if rs != [] {
      var s := LoweredBytes(lower, rs);
      var tail := LoweredBytes(lower, rs[1..]);
      DecodeEncode(lower(rs[0]), tail);
      LoweredRunes(lower, rs[1..]);
      assert s[|Encode(lower(rs[0]))|..] == tail;
      assert Tokens(s) == [Decode(s)] + Tokens(tail);
    }
  }

  /** The tokens start with runes that are `low` in lower case. */
  ghost predicate LowerPrefix(lower: Rune -> Rune, low: seq<Token>, ts: seq<Token>) {
    |low| <= |ts| && forall i :: 0 <= i < |low| ==> low[i].rune == lower(ts[i].rune)
  }

  lemma NothingPassed(s: seq<byte>)
    ensures Suffix(s, 0) == s && Offset(s, 0) == 0
  {
  }

  /** caseFoldingEqualsRunes: whether the text starts with the needle, and how many bytes that takes. */
  method CaseFoldingEqualsRunes(lower: Rune -> Rune, needle: seq<byte>, mixed: seq<byte>) returns (sz: nat, ok: bool)
    ensures ok <==> LowerPrefix(lower, Tokens(needle), Tokens(mixed))
    ensures ok ==> sz == Offset(mixed, |Tokens(needle)|)
  {
    hide Decode, Tokens, Suffix, Offset;
    ghost var ns, ms := Tokens(needle), Tokens(mixed);
    var low, mix := needle, mixed;
    sz := 0;
    ghost var k := 0;
    NothingPassed(needle);
    NothingPassed(mixed);
    while |low| > 0 && |mix| > 0
      invariant k <= |ns| && k <= |ms| && low == Suffix(needle, k) && mix == Suffix(mixed, k)
      invariant sz == Offset(mixed, k)
      invariant forall i :: 0 <= i < k ==> ns[i].rune == lower(ms[i].rune)
      decreases |low|
    {
      SuffixTokens(needle, k);
      SuffixTokens(mixed, k);
      SuffixStep(needle, k);
      SuffixStep(mixed, k);
      OffsetStep(mixed, k);
      var l, m := Decode(low), Decode(mix);
      low := low[l.size..];
      mix := mix[m.size..];
      sz := sz + m.size;
      if l.rune != lower(m.rune) {
        return 0, false;
      }
      k := k + 1;
    }
    SuffixTokens(needle, k);
    SuffixTokens(mixed, k);
    return sz, |low| == 0;
  }

  /** What is searched for, with its lower case form, and how runes compare. */
  datatype Needle = Needle(pattern: seq<byte>, lowered: seq<byte>, caseSensitive: bool, tables: CaseTables) {

    ghost predicate Ok() {
      tables.Ok() && lowered == LoweredBytes(tables.lower, Runes(pattern))
    }

    /** How many runes it has. */
    ghost function Length(): nat {
      |Tokens(pattern)|
    }

    /** The plain meaning of a match at rune `r` of a text: its bytes stand there, or its runes up to case. */
    ghost predicate MatchAt(text: seq<byte>, r: int) {
      && 0 <= r && r + Length() <= |Tokens(text)|
      && if caseSensitive then OccursAt(pattern, text, Offset(text, r))
         else forall i :: 0 <= i < Length() ==>
                tables.lower(Tokens(pattern)[i].rune) == tables.lower(Tokens(text)[r + i].rune)
    }

    /** The bytes a match at rune `r` covers. */
    ghost function MatchSize(text: seq<byte>, r: nat): int {
      if caseSensitive then |pattern| else Offset(text, r + Length()) - Offset(text, r)
    }

    ghost predicate FoundIn(text: seq<byte>) {
      exists r :: MatchAt(text, r)
    }
  }

  /** A match of a self-contained pattern, or one up to case where lower case stays on the cycle, is one rune by rune. */
  lemma MatchIsRunes(n: Needle, text: seq<byte>, r: int)
    requires n.MatchAt(text, r)
    requires if n.caseSensitive then SelfContained(n.pattern) else n.tables.LowerFolds(Runes(n.pattern), Runes(text))
    ensures RunesAt(Matching(n.caseSensitive, n.tables.fold), Tokens(n.pattern), Tokens(text), r)
  {
    hide Tokens, Offset, Runes, SameFold, CaseTables.LowerFolds;
    if n.caseSensitive {
      var r' := OccurrenceTokens(n.pattern, text, Offset(text, r));
      OffsetInjective(text, r, r');
      var window := Tokens(text)[r..r + n.Length()];
      assert forall i :: 0 <= i < n.Length() ==> window[i] == Tokens(text)[r + i];
    } else {
      forall i | 0 <= i < n.Length() ensures Matching(false, n.tables.fold).Same(Tokens(n.pattern)[i].rune, Tokens(text)[r + i].rune) {
        RuneOf(n.pattern, i);
        RuneOf(text, r + i);
        LowerFoldsAt(n.tables, Runes(n.pattern), Runes(text), i, r + i);
      }
    }
  }

  lemma RuneOf(s: seq<byte>, i: nat)
    requires i < |Tokens(s)|
    ensures Runes(s)[i] == Tokens(s)[i].rune
  {
  }

  lemma LowerFoldsAt(tables: CaseTables, rs: seq<Rune>, text: seq<Rune>, i: nat, j: nat)
    requires tables.LowerFolds(rs, text) && i < |rs| && j < |text| && tables.lower(rs[i]) == tables.lower(text[j])
    ensures SameFold(tables.fold, rs[i], text[j])
  {
  }

  lemma FoldsLowerAt(tables: CaseTables, rs: seq<Rune>, text: seq<Rune>, i: nat, j: nat)
    requires tables.FoldsLower(rs, text) && i < |rs| && j < |text| && SameFold(tables.fold, rs[i], text[j])
    ensures tables.lower(rs[i]) == tables.lower(text[j])
  {
    hide SameFold;
  }

  lemma SameAt(m: Matching, pat: seq<Token>, ts: seq<Token>, r: int, i: nat)
    requires RunesAt(m, pat, ts, r) && i < |pat|
    ensures m.Same(pat[i].rune, ts[r + i].rune)
  {
    hide Matching.Same;
  }

  /** What stands rune by rune is a match: exactly where the pattern is legible, up to case where the cycle stays in lower case. */
  lemma RunesAreMatch(n: Needle, text: seq<byte>, r: int)
    requires RunesAt(Matching(n.caseSensitive, n.tables.fold), Tokens(n.pattern), Tokens(text), r)
    requires if n.caseSensitive then ValidUtf8(n.pattern) && Legible(n.pattern, text) else n.tables.FoldsLower(Runes(n.pattern), Runes(text))
    ensures n.MatchAt(text, r)
  {
    if n.caseSensitive {
      ExactRunesAreMatch(n, text, r);
    } else {
      FoldedRunesAreMatch(n, text, r);
    }
  }

  lemma ExactRunesAreMatch(n: Needle, text: seq<byte>, r: int)
    requires n.caseSensitive && RunesAt(Matching(true, n.tables.fold), Tokens(n.pattern), Tokens(text), r)
    requires ValidUtf8(n.pattern) && Legible(n.pattern, text)
    ensures n.MatchAt(text, r)
  {
    hide Tokens, Offset, ValidUtf8, OccursAt, Legible, RunesAt;
    var m, pat, ts := Matching(true, n.tables.fold), Tokens(n.pattern), Tokens(text);
    assert 0 <= r && r + |pat| <= |ts| by { RunesInside(m, pat, ts, r); }
    forall i | 0 <= i < |pat| ensures ts[r + i].rune == pat[i].rune {
      SameAt(m, pat, ts, r, i);
    }
    OccursIffRunes(n.pattern, text, r);
  }

  lemma FoldedRunesAreMatch(n: Needle, text: seq<byte>, r: int)
    requires !n.caseSensitive && RunesAt(Matching(false, n.tables.fold), Tokens(n.pattern), Tokens(text), r)
    requires n.tables.FoldsLower(Runes(n.pattern), Runes(text))
    ensures n.MatchAt(text, r)
  {
    hide Tokens, Offset, Runes, RunesAt, SameFold, CaseTables.FoldsLower;
    var m, pat, ts := Matching(false, n.tables.fold), Tokens(n.pattern), Tokens(text);
    RunesInside(m, pat, ts, r);
    forall i | 0 <= i < |pat| ensures n.tables.lower(pat[i].rune) == n.tables.lower(ts[r + i].rune) {
      SameAt(m, pat, ts, r, i);
      RuneOf(n.pattern, i);
      RuneOf(text, r + i);
      FoldsLowerAt(n.tables, Runes(n.pattern), Runes(text), i, r + i);
    }
  }

  lemma RunesInside(m: Matching, pat: seq<Token>, ts: seq<Token>, r: int)
    requires RunesAt(m, pat, ts, r)
    ensures 0 <= r && r + |pat| <= |ts|
  {
  }

  /** A byte by byte search finds exactly the matches at runes: no match starts inside a rune. */
  lemma FoundIffBytesOccur(n: Needle, text: seq<byte>)
    requires n.caseSensitive && SelfContained(n.pattern)
    ensures n.FoundIn(text) <==> exists b :: OccursAt(n.pattern, text, b)
    ensures forall b :: OccursAt(n.pattern, text, b) ==> exists r :: n.MatchAt(text, r) && Offset(text, r) == b
  {
    forall b | OccursAt(n.pattern, text, b) ensures exists r :: n.MatchAt(text, r) && Offset(text, r) == b {
      var r := OccurrenceTokens(n.pattern, text, b);
      assert n.MatchAt(text, r);
    }
  }

  /** A candidate that has room for all its runes cannot match past the end of a closed text. */
  lemma NoOverrun(pattern: seq<byte>, text: seq<byte>, rest: seq<byte>, r: nat)
    requires Closed(text) && r + |Tokens(pattern)| <= |Tokens(text)|
    requires OccursAt(pattern, text + rest, Offset(text, r))
    ensures OccursAt(pattern, text, Offset(text, r))
  {
    hide Tokens;
    var off := Offset(text, r);
    var here := Suffix(text, r);
    SuffixIsSlice(text, r);
    SuffixTokens(text, r);
    if off + |pattern| > |text| {
      var more := pattern[|here|..];
      assert pattern == here + more by {
        assert (text + rest)[off..off + |pattern|][..|here|] == here;
      }
      ClosedSuffix(text, r);
      TokensAppend(here, more);
      OffsetEnds(more);
      assert false;
    } else {
      assert (text + rest)[off..off + |pattern|] == text[off..off + |pattern|];
    }
  }

  /** The comparison at rune `r` may look past the end of the text, yet succeeds only inside it. */
  ghost predicate StaysInside(text: seq<byte>, pattern: seq<byte>, rest: seq<byte>, r: nat) {
    r + |Tokens(pattern)| <= |Tokens(text)| && OccursAt(pattern, text + rest, Offset(text, r)) ==>
      OccursAt(pattern, text, Offset(text, r))
  }

  lemma OpenIsOverrun(text: seq<byte>, rest: seq<byte>)
    requires Open(text) && Decode(text + rest).size == |text + rest| > |text|
    ensures !StaysInside(text, text + rest, rest, 0)
  {
    assert text != [] && Offset(text, 0) == 0;
    hide Decode, Open;
    var pattern := text + rest;
    TokensCons(pattern);
    assert Tokens(pattern[|pattern|..]) == [];
    OffsetEnds(text);
    assert pattern[0..|pattern|] == pattern;
  }

  lemma OverrunLater(text: seq<byte>, n: nat, pattern: seq<byte>, rest: seq<byte>, r: nat)
    requires text != [] && n == Decode(text).size && !StaysInside(text[n..], pattern, rest, r)
    ensures !StaysInside(text, pattern, rest, r + 1)
  {
    hide Decode, OccursAt;
    var tail := text[n..];
    TokensCons(text);
    assert Suffix(text, r + 1) == Suffix(tail, r);
    OccursShift(pattern, text, rest, n, Offset(tail, r));
  }

  /** A text with an open end is overrun by the pattern that completes its last rune. */
  lemma {:induction false} OverrunWitness(text: seq<byte>) returns (pattern: seq<byte>, rest: seq<byte>, r: nat)
    requires !Closed(text)
    ensures !StaysInside(text, pattern, rest, r)
    decreases |text|
  {
    if Open(text) {
      rest := OpenCompletes(text);
      pattern, r := text + rest, 0;
      OpenIsOverrun(text, rest);
    } else {
      var n := Decode(text).size;
      var tail := text[n..];
      var r';
      pattern, rest, r' := OverrunWitness(tail);
      r := r' + 1;
      OverrunLater(text, n, pattern, rest, r');
    }
  }

  lemma OccursShift(pattern: seq<byte>, text: seq<byte>, rest: seq<byte>, n: nat, b: nat)
    requires n <= |text|
    ensures OccursAt(pattern, text[n..], b) <==> OccursAt(pattern, text, n + b)
    ensures OccursAt(pattern, text[n..] + rest, b) <==> OccursAt(pattern, text + rest, n + b)
  {
    assert text[n..] + rest == (text + rest)[n..];
    if b + |pattern| <= |text[n..]| { assert text[n..][b..b + |pattern|] == text[n + b..n + b + |pattern|]; }
    if b + |pattern| <= |text[n..] + rest| {
      assert (text + rest)[n..][b..b + |pattern|] == (text + rest)[n + b..n + b + |pattern|];
    }
  }

  /** Exactly the closed texts are never overrun. */
  lemma ClosedIffNoOverrun(text: seq<byte>)
    ensures Closed(text) <==> forall pattern: seq<byte>, rest: seq<byte>, r: nat :: StaysInside(text, pattern, rest, r)
  {
    if Closed(text) {
      forall pattern: seq<byte>, rest: seq<byte>, r: nat ensures StaysInside(text, pattern, rest, r) {
        if r + |Tokens(pattern)| <= |Tokens(text)| && OccursAt(pattern, text + rest, Offset(text, r)) {
          NoOverrun(pattern, text, rest, r);
        }
      }
    } else {
      var pattern, rest, r := OverrunWitness(text);
    }
  }

  lemma AsciiToken(c: byte, s: seq<byte>)
    requires c < 0x80
    ensures Tokens([c] + s) == [Token(c, 1)] + Tokens(s)
  {
    assert ([c] + s)[1..] == s;
  }

  lemma RuneErrorTokens()
    ensures Tokens([0xef, 0xbf, 0xbd]) == [Token(RuneError, 3)] && Tokens([0xef]) == [Token(RuneError, 1)]
  {
    var whole, half: seq<byte> := [0xef, 0xbf, 0xbd], [0xef];
    assert WellEncoded(whole) && RuneValue(whole) == RuneError;
    assert whole[3..] == [] && half[1..] == [];
  }

  lemma OverrunTokens()
    ensures Tokens([0x61, 0x62, 0xef, 0xbf, 0xbd]) == [Token(0x61, 1), Token(0x62, 1), Token(RuneError, 3)]
    ensures Tokens([0x61, 0x62, 0xef]) == [Token(0x61, 1), Token(0x62, 1), Token(RuneError, 1)]
  {
    hide Tokens;
    RuneErrorTokens();
    AsciiToken(0x62, [0xef, 0xbf, 0xbd]);
    AsciiToken(0x61, [0x62, 0xef, 0xbf, 0xbd]);
    AsciiToken(0x62, [0xef]);
    AsciiToken(0x61, [0x62, 0xef]);
    assert [0x61, 0x62, 0xef, 0xbf, 0xbd] == [0x61] + [0x62, 0xef, 0xbf, 0xbd];
    assert [0x62, 0xef, 0xbf, 0xbd] == [0x62] + [0xef, 0xbf, 0xbd];
    assert [0x61, 0x62, 0xef] == [0x61] + [0x62, 0xef] && [0x62, 0xef] == [0x62] + [0xef];
  }

  /** A match across a document boundary: "ab" and half of U+FFFD, the other half in the next document. */
  lemma OverrunExample()
    ensures var pattern, text, next: seq<byte> := [0x61, 0x62, 0xef, 0xbf, 0xbd], [0x61, 0x62, 0xef], [0xbf, 0xbd];
            Runes(pattern) == Runes(text) && OccursAt(pattern, text + next, 0) && !OccursAt(pattern, text, 0)
  {
    var pattern, text, next: seq<byte> := [0x61, 0x62, 0xef, 0xbf, 0xbd], [0x61, 0x62, 0xef], [0xbf, 0xbd];
    hide Tokens;
    OverrunTokens();
    assert text + next == pattern;
  }
}
