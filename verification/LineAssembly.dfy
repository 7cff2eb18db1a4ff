/** Cutting matches into lines and fragments (contentprovider.go:166-256, matchiter.go:63-84, web/snippets.go:125-141). */
module LineAssembly {
  import opened Machine
  import opened DeltaCodec
  import opened SubstringMatching
  import opened MatchAssembly

  const Newline: byte := 10

  /** sort.Search: the first index for which `f` holds, if `f` holds from some index on. */
  method SearchFirst(n: nat, f: int -> bool) returns (i: nat)
    requires forall j, k :: 0 <= j < k < n && f(j) ==> f(k)
    ensures i <= n && (forall k :: 0 <= k < i ==> !f(k)) && (forall k :: i <= k < n ==> f(k))
  {
    var lo, hi := 0, n;
    while lo < hi
      invariant 0 <= lo <= hi <= n
      invariant (forall k :: 0 <= k < lo ==> !f(k)) && (forall k :: hi <= k < n ==> f(k))
    {
      var h := (lo + hi) / 2;
      if !f(h) {
        lo := h + 1;
      } else {
        hi := h;
      }
    }
    return lo;
  }

  // ----- lines -----

  /** The table of newlines of a document (write.go:156-164). */
  ghost predicate AreNewlines(nl: seq<u32>, data: seq<byte>) {
    && Increasing(nl)
    && forall x: int :: x in nl <==> 0 <= x < |data| && data[x] == Newline
  }

  /** A line may end here. */
  predicate IsLineEnd(data: seq<byte>, e: int) {
    e == |data| || (0 <= e < |data| && data[e] == Newline)
  }

  /** The end of the line that holds offset `x`: the first line end at or after it. */
  ghost predicate LineEndFrom(data: seq<byte>, x: int, e: int) {
    x <= e && IsLineEnd(data, e) && forall y :: x <= y < e ==> !IsLineEnd(data, y)
  }

  /** The start of the line that holds offset `x`; a newline belongs to the line that it ends. */
  ghost predicate LineStartOf(data: seq<byte>, x: int, s: int) {
    && 0 <= s <= x && (s == 0 || (s <= |data| && data[s - 1] == Newline))
    && forall y :: s <= y < x && y < |data| ==> data[y] != Newline
  }

  /** One more than the number of newlines before `x`. */
  function LineNumber(data: seq<byte>, x: nat): nat {
    if x == 0 then 1
    else LineNumber(data, x - 1) + if x - 1 < |data| && data[x - 1] == Newline then 1 else 0
  }

  lemma {:induction false} LineNumberCounts(nl: seq<u32>, data: seq<byte>, x: nat, idx: nat)
    requires AreNewlines(nl, data) && idx <= |nl|
    requires (forall k :: 0 <= k < idx ==> nl[k] < x) && (forall k :: idx <= k < |nl| ==> nl[k] >= x)
    ensures LineNumber(data, x) == idx + 1
    decreases x
  {
    if x == 0 {
      assert idx == 0;
    } else if x - 1 < |data| && data[x - 1] == Newline {
      var y: int := x - 1;
      assert y in nl;
      var k :| 0 <= k < |nl| && nl[k] == y;
      assert nl[idx - 1] <= nl[k];
      assert k == idx - 1;
      LineNumberCounts(nl, data, x - 1, idx - 1);
    } else {
      forall k | 0 <= k < idx ensures nl[k] < x - 1 {
        assert nl[k] in nl;
      }
      LineNumberCounts(nl, data, x - 1, idx);
    }
  }

  /** candidateMatch.line. */
  method Line(offset: u32, nl: seq<u32>, fileSize: u32, ghost data: seq<byte>)
    returns (num: nat, start: nat, end: nat)
    requires AreNewlines(nl, data) && fileSize == |data| && offset <= fileSize
    ensures num == LineNumber(data, offset)
    ensures LineStartOf(data, offset, start) && LineEndFrom(data, offset, end)
  {
    var f := (n: int) => 0 <= n < |nl| && nl[n] >= offset;
    var idx := SearchFirst(|nl|, f);
    assert forall k :: 0 <= k < |nl| ==> (f(k) <==> nl[k] >= offset);
    LineNumberCounts(nl, data, offset, idx);
    end := fileSize;
    if idx < |nl| {
      end := nl[idx];
    }
    start := 0;
    if idx > 0 {
      start := nl[idx - 1] + 1;
    }
    LineFacts(nl, data, offset, idx, start, end);
    return idx + 1, start, end;
  }

  lemma LineFacts(nl: seq<u32>, data: seq<byte>, x: nat, idx: nat, start: nat, end: nat)
    requires AreNewlines(nl, data) && idx <= |nl| && x <= |data|
    requires (forall k :: 0 <= k < idx ==> nl[k] < x) && (forall k :: idx <= k < |nl| ==> nl[k] >= x)
    requires if idx > 0 then start - 1 == nl[idx - 1] else start == 0
    requires end == if idx < |nl| then nl[idx] else |data|
    ensures LineStartOf(data, x, start) && LineEndFrom(data, x, end)
  {
    assert forall k :: 0 <= k < |nl| ==> nl[k] in nl;
    forall y: int | start <= y < |data| && data[y] == Newline ensures y >= x && y >= end {
      assert y in nl;
      var k :| 0 <= k < |nl| && nl[k] == y;
      assert k >= idx;
    }
  }

  /** newLinesIndices. */
  method NewLinesIndices(data: seq<byte>) returns (nl: seq<u32>)
    requires |data| <= MaxU32
    ensures AreNewlines(nl, data)
  {
    nl := [];
    for i := 0 to |data|
      invariant AreNewlines(nl, data[..i])
    {
      assert forall k :: 0 <= k < |nl| ==> nl[k] in nl;
      if data[i] == Newline {
        nl := nl + [i];
      }
    }
    assert data[..|data|] == data;
  }

  // ----- line records -----

  datatype LineFragment = LineFragment(lineOffset: int, offset: u32, matchLength: int)

  datatype LineMatch = LineMatch(line: seq<byte>, lineStart: nat, lineEnd: nat, lineNumber: nat, fragments: seq<LineFragment>)

  /** The matches lie in the file. */
  ghost predicate InFile(ms: seq<Candidate>, data: seq<byte>) {
    forall i :: 0 <= i < |ms| ==> End(ms[i]) <= |data|
  }

  /** The record of the matches `ms`, all of which start on its line. */
  ghost predicate LineOk(lm: LineMatch, ms: seq<Candidate>, data: seq<byte>) {
    && ms != [] && |lm.fragments| == |ms|
    && (forall i :: 0 <= i < |ms| ==> LineNumber(data, ms[i].byteOffset) == lm.lineNumber)
    && LineStartOf(data, ms[0].byteOffset, lm.lineStart)
    && LineEndFrom(data, End(ms[|ms| - 1]), lm.lineEnd)
    && lm.lineStart <= lm.lineEnd <= |data| && lm.line == data[lm.lineStart..lm.lineEnd]
    && forall i :: 0 <= i < |ms| ==>
         lm.fragments[i] == LineFragment(ms[i].byteOffset - lm.lineStart, ms[i].byteOffset, ms[i].byteMatchSz)
  }

  /** The fragments of a record are in order, apart, and inside its line. */
  ghost predicate FragmentsOk(lm: LineMatch) {
    && (forall i :: 0 <= i < |lm.fragments| ==>
          0 <= lm.fragments[i].lineOffset && 0 <= lm.fragments[i].matchLength
          && lm.fragments[i].lineOffset + lm.fragments[i].matchLength <= |lm.line|)
    && (forall i, j :: 0 <= i < j < |lm.fragments| ==>
          lm.fragments[i].lineOffset + lm.fragments[i].matchLength < lm.fragments[j].lineOffset)
  }

  lemma LineFragmentsOk(lm: LineMatch, ms: seq<Candidate>, data: seq<byte>)
    requires LineOk(lm, ms, data) && Separated(ms)
    ensures FragmentsOk(lm)
  {
    forall i | 0 <= i < |ms| ensures End(ms[i]) <= End(ms[|ms| - 1]) && ms[0].byteOffset <= ms[i].byteOffset {
      assert i < |ms| - 1 ==> End(ms[i]) < ms[|ms| - 1].byteOffset;
      assert 0 < i ==> End(ms[0]) < ms[i].byteOffset;
    }
  }

  lemma {:induction false} SameLine(data: seq<byte>, x: nat, y: nat, e: nat)
    requires LineEndFrom(data, x, e) && x <= y <= e
    ensures LineNumber(data, y) == LineNumber(data, x)
    decreases y
  {
    if y > x {
      assert !IsLineEnd(data, y - 1);
      SameLine(data, x, y - 1, e);
    }
  }

  lemma {:induction false} NumbersGrow(data: seq<byte>, x: nat, y: nat)
    requires x <= y
    ensures LineNumber(data, x) <= LineNumber(data, y)
    decreases y
  {
    if x < y {
      NumbersGrow(data, x, y - 1);
    }
  }

  /** Past the end of its line the next match is on a later line. */
  lemma LaterLine(data: seq<byte>, x: nat, y: nat, e: nat)
    requires LineEndFrom(data, x, e) && e < y <= |data|
    ensures LineNumber(data, x) < LineNumber(data, y)
  {
    SameLine(data, x, e, e);
    NumbersGrow(data, e + 1, y);
  }

  /** Taking lines until the last match is passed (contentprovider.go:197-208). */
  method ExtendLine(data: seq<byte>, lineEnd0: nat, endMatch: nat, ghost x: nat) returns (lineEnd: nat)
    requires |data| <= MaxU32 && LineEndFrom(data, x, lineEnd0) && x <= endMatch <= |data|
    ensures LineEndFrom(data, endMatch, lineEnd)
  {
    lineEnd := lineEnd0;
    while lineEnd < |data| && endMatch > lineEnd
      invariant lineEnd <= |data| && IsLineEnd(data, lineEnd)
      invariant forall y :: endMatch <= y < lineEnd ==> !IsLineEnd(data, y)
      decreases |data| - lineEnd
    {
      var next := IndexByte(data[lineEnd + 1..], Newline);
      if next == -1 {
        assert forall y :: lineEnd < y < |data| ==> data[y] == data[lineEnd + 1..][y - lineEnd - 1];
        lineEnd := |data|;
      } else {
        assert forall y :: lineEnd < y < |data| ==> data[y] == data[lineEnd + 1..][y - lineEnd - 1];
        lineEnd := lineEnd + next + 1;
      }
    }
  }

  /** bytes.IndexByte. */
  method IndexByte(s: seq<byte>, b: byte) returns (i: int)
    ensures -1 <= i < |s| && (i >= 0 ==> s[i] == b)
    ensures forall k :: 0 <= k < |s| && (i == -1 || k < i) ==> s[k] != b
  {
    i := 0;
    while i < |s|
      invariant 0 <= i <= |s| && forall k :: 0 <= k < i ==> s[k] != b
    {
      if s[i] == b {
        return;
      }
      i := i + 1;
    }
    return -1;
  }

  /** The matches, divided among the records in order: each is in exactly one, by the line it starts on. */
  ghost predicate Divided(records: seq<LineMatch>, groups: seq<seq<Candidate>>, ms: seq<Candidate>, data: seq<byte>) {
    && |groups| == |records| && JoinAll(groups) == ms
    && (forall i :: 0 <= i < |records| ==> LineOk(records[i], groups[i], data) && FragmentsOk(records[i]))
    && (forall i, j :: 0 <= i < j < |records| ==> records[i].lineNumber < records[j].lineNumber)
  }

  /** The matches that start on the line up to `lineEnd` (contentprovider.go:176-185). */
  method TakeLine(ms: seq<Candidate>, lineEnd: nat) returns (n: nat)
    requires ms != [] && ms[0].byteOffset <= lineEnd
    ensures 1 <= n <= |ms|
    ensures (forall i :: 0 <= i < n ==> ms[i].byteOffset <= lineEnd) && (n < |ms| ==> ms[n].byteOffset > lineEnd)
  {
    n := 0;
    while n < |ms| && ms[n].byteOffset <= lineEnd
      invariant n <= |ms| && forall i :: 0 <= i < n ==> ms[i].byteOffset <= lineEnd
    {
      n := n + 1;
    }
  }

  /** The record for the matches of one line (contentprovider.go:195-224). */
  method NewLineMatch(ms: seq<Candidate>, data: seq<byte>, num: nat, lineStart: nat, lineEnd0: nat) returns (lm: LineMatch)
    requires |data| <= MaxU32 && ms != [] && Separated(ms) && InFile(ms, data)
    requires num == LineNumber(data, ms[0].byteOffset)
    requires LineStartOf(data, ms[0].byteOffset, lineStart) && LineEndFrom(data, ms[0].byteOffset, lineEnd0)
    requires forall i :: 0 <= i < |ms| ==> ms[i].byteOffset <= lineEnd0
    ensures LineOk(lm, ms, data) && FragmentsOk(lm) && lm.lineNumber == num
  {
    hide LineEndFrom, LineStartOf, LineNumber;
    var first, last := ms[0], ms[|ms| - 1];
    GroupFacts(ms, data, lineStart, lineEnd0);
    var lineEnd := ExtendLine(data, lineEnd0, End(last), first.byteOffset);
    EndAfterStart(data, lineStart, first.byteOffset, End(last), lineEnd);
    var fragments := [];
    for i := 0 to |ms|
      invariant |fragments| == i
      invariant forall j :: 0 <= j < i ==>
                  fragments[j] == LineFragment(ms[j].byteOffset - lineStart, ms[j].byteOffset, ms[j].byteMatchSz)
    {
      fragments := fragments + [LineFragment(ms[i].byteOffset - lineStart, ms[i].byteOffset, ms[i].byteMatchSz)];
    }
    lm := LineMatch(data[lineStart..lineEnd], lineStart, lineEnd, num, fragments);
    LineFragmentsOk(lm, ms, data);
  }

  lemma GroupFacts(ms: seq<Candidate>, data: seq<byte>, lineStart: nat, lineEnd0: nat)
    requires ms != [] && Separated(ms) && InFile(ms, data)
    requires LineStartOf(data, ms[0].byteOffset, lineStart) && LineEndFrom(data, ms[0].byteOffset, lineEnd0)
    requires forall i :: 0 <= i < |ms| ==> ms[i].byteOffset <= lineEnd0
    ensures forall i :: 0 <= i < |ms| ==> LineNumber(data, ms[i].byteOffset) == LineNumber(data, ms[0].byteOffset)
    ensures ms[0].byteOffset <= End(ms[|ms| - 1])
  {
    forall i | 0 <= i < |ms|
      ensures ms[0].byteOffset <= ms[i].byteOffset && LineNumber(data, ms[i].byteOffset) == LineNumber(data, ms[0].byteOffset)
    {
      assert i > 0 ==> End(ms[0]) < ms[i].byteOffset;
      SameLine(data, ms[0].byteOffset, ms[i].byteOffset, lineEnd0);
    }
  }

  lemma EndAfterStart(data: seq<byte>, start: nat, x: nat, end: nat, lineEnd: nat)
    requires LineStartOf(data, x, start) && x <= end <= |data| && LineEndFrom(data, end, lineEnd)
    ensures start <= lineEnd <= |data|
  {
  }

  /** fillContentMatches. The panic for a line without matches is not reached. */
  method FillContentMatches(ms: seq<Candidate>, nl: seq<u32>, data: seq<byte>) returns (result: seq<LineMatch>)
    requires |data| <= MaxU32 && AreNewlines(nl, data) && Separated(ms) && InFile(ms, data)
    ensures exists groups :: Divided(result, groups, ms, data)
  {
    hide LineEndFrom, LineStartOf, LineNumber, LineOk, FragmentsOk, Separated, JoinAll, AreNewlines;
    result := [];
    ghost var groups := [];
    var rest := ms;
    ghost var k := 0;
    NothingDivided(data);
    while rest != []
      invariant k <= |ms| && rest == ms[k..] && Divided(result, groups, ms[..k], data)
      invariant result != [] && rest != [] ==> result[|result| - 1].lineNumber < LineNumber(data, rest[0].byteOffset)
      decreases |rest|
    {
      SliceSeparated(ms, k, data);
      var num, lineStart, lineEnd := Line(rest[0].byteOffset, nl, |data|, data);
      LineEndAfter(data, rest[0].byteOffset, lineEnd);
      var n := TakeLine(rest, lineEnd);
      SliceSeparated(rest, n, data);
      var lm := NewLineMatch(rest[..n], data, num, lineStart, lineEnd);
      OneMoreGroup(result, groups, ms, k, n, lm, data);
      if n < |rest| {
        LaterLine(data, rest[0].byteOffset, rest[n].byteOffset, lineEnd);
      }
      result, groups := result + [lm], groups + [rest[..n]];
      rest := rest[n..];
      k := k + n;
    }
    assert ms[..k] == ms;
  }

  lemma NothingDivided(data: seq<byte>)
    ensures Divided([], [], [], data)
  {
  }

  lemma LineEndAfter(data: seq<byte>, x: nat, e: nat)
    requires LineEndFrom(data, x, e)
    ensures x <= e
  {
  }

  lemma SliceSeparated(ms: seq<Candidate>, k: nat, data: seq<byte>)
    requires Separated(ms) && InFile(ms, data) && k <= |ms|
    ensures Separated(ms[k..]) && InFile(ms[k..], data) && Separated(ms[..k]) && InFile(ms[..k], data)
  {
    assert forall i :: 0 <= i < |ms| - k ==> ms[k..][i] == ms[k + i];
  }

  lemma OneMoreGroup(records: seq<LineMatch>, groups: seq<seq<Candidate>>, ms: seq<Candidate>, k: nat, n: nat, lm: LineMatch,
                     data: seq<byte>)
    requires k + n <= |ms| && Divided(records, groups, ms[..k], data)
    requires LineOk(lm, ms[k..][..n], data) && FragmentsOk(lm)
    requires records != [] ==> records[|records| - 1].lineNumber < lm.lineNumber
    ensures Divided(records + [lm], groups + [ms[k..][..n]], ms[..k + n], data)
  {
    hide LineOk, FragmentsOk, JoinAll;
    JoinOne(groups, ms[k..][..n]);
    assert ms[..k + n] == ms[..k] + ms[k..][..n];
    assert forall i :: 0 <= i < |records| - 1 ==> records[i].lineNumber < records[|records| - 1].lineNumber;
  }

  // ----- snippets -----

  datatype Fragment = Fragment(pre: seq<byte>, matched: seq<byte>, post: seq<byte>)

  /** The pieces of the fragments, put together again. */
  function Text(fs: seq<Fragment>): seq<byte> {
    if fs == [] then [] else Text(fs[..|fs| - 1]) + fs[|fs| - 1].pre + fs[|fs| - 1].matched + fs[|fs| - 1].post
  }

  lemma NoText()
    ensures Text([]) == []
  {
  }

  lemma OnePiece(fs: seq<Fragment>, f: Fragment, line: seq<byte>, lastEnd: nat, l: nat, e: nat)
    requires lastEnd <= l <= e <= |line| && Text(fs) == line[..lastEnd]
    requires f.pre == line[lastEnd..l] && f.matched == line[l..e]
    ensures f.post == [] ==> Text(fs + [f]) == line[..e]
    ensures f.post == line[e..] ==> Text(fs + [f]) == line
  {
    var all := fs + [f];
    assert all[..|all| - 1] == fs;
    assert line[..lastEnd] + f.pre + f.matched == line[..e];
    assert line[..e] + line[e..] == line;
  }

  /** Where fragment `i` ends in the line; before the first one that is the start of the line. */
  function FragmentEnd(lm: LineMatch, i: int): int
    requires -1 <= i < |lm.fragments|
  {
    if i < 0 then 0 else lm.fragments[i].lineOffset + lm.fragments[i].matchLength
  }

  /** Fragment `i` has what is between the match before and its own, its match, and if it is the last what follows. */
  ghost predicate IsPiece(f: Fragment, lm: LineMatch, i: nat)
    requires i < |lm.fragments|
  {
    && 0 <= FragmentEnd(lm, i - 1) <= lm.fragments[i].lineOffset <= FragmentEnd(lm, i) <= |lm.line|
    && f.pre == lm.line[FragmentEnd(lm, i - 1)..lm.fragments[i].lineOffset]
    && f.matched == lm.line[lm.fragments[i].lineOffset..FragmentEnd(lm, i)]
    && f.post == if i == |lm.fragments| - 1 then lm.line[FragmentEnd(lm, i)..] else []
  }

  /** The fragment loop of formatResults: the pieces give back the line, and the matched ones are the matches. */
  method FormatFragments(lm: LineMatch) returns (fs: seq<Fragment>)
    requires FragmentsOk(lm)
    ensures |fs| == |lm.fragments| && (fs != [] ==> Text(fs) == lm.line)
    ensures forall i :: 0 <= i < |fs| ==> IsPiece(fs[i], lm, i)
  {
    hide Text;
    var lastEnd := 0;
    fs := [];
    assert Text([]) == [] by { NoText(); }
    for i := 0 to |lm.fragments|
      invariant |fs| == i && 0 <= lastEnd <= |lm.line|
      invariant lastEnd == FragmentEnd(lm, i - 1)
      invariant Text(fs) == if 0 < i == |lm.fragments| then lm.line else lm.line[..lastEnd]
      invariant forall j :: 0 <= j < i ==> IsPiece(fs[j], lm, j)
    {
      var f := lm.fragments[i];
      var l := f.lineOffset;
      var e := l + f.matchLength;
      assert i > 0 ==> lastEnd < l;
      var frag := Fragment(lm.line[lastEnd..l], lm.line[l..e], []);
      if i == |lm.fragments| - 1 {
        frag := frag.(post := lm.line[e..]);
      }
      OnePiece(fs, frag, lm.line, lastEnd, l, e);
      fs := fs + [frag];
      lastEnd := e;
    }
  }

  // ----- sections -----

  /** findSection: the section that holds the match, if there is one. */
  method FindSection(secs: seq<Section>, off: u32, sz: u32) returns (r: Option<Section>)
    requires off + sz <= MaxU32
    requires forall i :: 0 <= i < |secs| ==> secs[i].start <= secs[i].end
    requires forall i, j :: 0 <= i < j < |secs| ==> secs[i].end <= secs[j].start
    ensures r.Some? ==> r.value in secs && r.value.start <= off && off + sz <= r.value.end
    ensures r.None? ==> forall s :: s in secs ==> !(s.start <= off && off + sz <= s.end)
  {
    var f := (i: int) => 0 <= i < |secs| && secs[i].end >= off + sz;
    var j := SearchFirst(|secs|, f);
    assert forall k :: 0 <= k < |secs| ==> (f(k) <==> secs[k].end >= off + sz);
    if j == |secs| {
      return None;
    }
    if secs[j].start <= off && off + sz <= secs[j].end {
      return Some(secs[j]);
    }
    forall k | 0 <= k < |secs| ensures !(secs[k].start <= off && off + sz <= secs[k].end) {
      assert k > j ==> secs[j].end <= secs[k].start;
    }
    return None;
  }
}
