/** From rune offsets back to byte offsets (findOffset, contentprovider.go:93-134). */
module RuneLookup {
  import opened Machine
  import opened Utf8
  import opened Corpus
  import opened Postings

  /** No document ends inside an encoded rune. */
  ghost predicate AllClosed(files: seq<seq<byte>>) {
    forall d :: 0 <= d < |files| ==> Closed(files[d])
  }

  /** Closed documents split into the same tokens read together or one by one. */
  lemma {:induction false} CorpusTokens(files: seq<seq<byte>>, tail: seq<byte>)
    requires AllClosed(files)
    ensures Tokens(Bytes(files) + tail) == Flat(Tokenize(files)) + Tokens(tail)
  {
    if files == [] {
      assert Bytes(files) + tail == tail;
    } else {
      var init, last := files[..|files| - 1], files[|files| - 1];
      assert files == init + [last];
      assert Bytes(files) + tail == Bytes(init) + (last + tail);
      CorpusTokens(init, last + tail);
      TokensAppend(last, tail);
      TokenizeAppend(init, last);
      FlatAppend(Tokenize(init), Tokens(last));
    }
  }

  /** The byte offset of a rune of the corpus. */
  lemma CorpusOffset(files: seq<seq<byte>>, tail: seq<byte>, p: nat)
    requires AllClosed(files) && p <= |Flat(Tokenize(files))|
    ensures Offset(Bytes(files) + tail, p) == Width(Flat(Tokenize(files))[..p])
  {
    CorpusTokens(files, tail);
    var all := Bytes(files) + tail;
    WidthOfTokens(all, p);
    assert Tokens(all)[..p] == Flat(Tokenize(files))[..p];
  }

  /** Cutting the text short does not change a token that fits. */
  lemma DecodeTruncated(s: seq<byte>, w: nat)
    requires 0 < w <= |s| && Decode(s).size <= w
    ensures Decode(s[..w]) == Decode(s)
  {
    var t := s[..w];
    assert |t| >= 2 ==> t[1] == s[1];
    assert |t| >= 3 ==> t[2] == s[2];
    assert |t| >= 4 ==> t[3] == s[3];
  }

  lemma TakeThenDrop(s: seq<byte>, w: nat, n: nat)
    requires n <= w <= |s|
    ensures s[..w][n..] == s[n..][..w - n]
  {
  }

  /** Walking `n` runes through the first `w` bytes is exact as long as they fit there. */
  lemma {:induction false} WalkTruncated(s: seq<byte>, w: nat, n: nat)
    requires w <= |s| && Offset(s, n) <= w
    ensures Offset(s[..w], n) == Offset(s, n)
    decreases n
  {
    if n > 0 && s != [] {
      var sz := Decode(s).size;
      assert Suffix(s, n) == Suffix(s[sz..], n - 1);
      assert sz <= Offset(s, n);
      DecodeTruncated(s, w);
      WalkTruncated(s[sz..], w - sz, n - 1);
      TakeThenDrop(s, w, sz);
    }
  }

  /** The loop at contentprovider.go:125: step over `n` runes. An empty buffer yields empty steps. */
  method Walk(data: seq<byte>, byteOff: u32, n: u32) returns (off: u32)
    requires byteOff + |data| <= MaxU32
    ensures off == byteOff + Offset(data, n)
  {
    var rest, left := data, n;
    off := byteOff;
    assert Offset(data, 0) == 0;
    while left > 0
      invariant 0 <= left <= n && rest == Suffix(data, n - left)
      invariant off == byteOff + Offset(data, n - left)
      decreases left
    {
      StepOrStay(data, n - left);
      var sz := Decode(rest).size;
      off := off + sz;
      rest := rest[sz..];
      left := left - 1;
    }
  }

  lemma {:induction false} StepOrStay(s: seq<byte>, r: nat)
    ensures Suffix(s, r + 1) == Suffix(s, r)[Decode(Suffix(s, r)).size..]
    decreases r
  {
    if r > 0 && s != [] {
      StepOrStay(s[Decode(s).size..], r - 1);
    }
  }

  /** The position in the corpus of rune `r` of document `d`. */
  ghost function Position(files: seq<seq<byte>>, d: nat, r: nat): nat
    requires d < |files|
  {
    Start(Tokenize(files), d) + r
  }

  /** The bytes between the last sample at or before position `p` and `p`. */
  ghost function Window(files: seq<seq<byte>>, p: nat): nat
    requires p <= |Flat(Tokenize(files))|
  {
    var k := p / 100;
    Width(Flat(Tokenize(files))[100 * k..p])
  }

  /** How document contents are read: at most this many bytes after a sample (contentprovider.go:120). */
  const ContentWindow: int := 300

  /**
   * The part of an index that concerns one kind of text, contents or file names:
   * the sample table, the ends in runes, the boundaries in bytes and the bytes
   * from the first text to the end of the mapped file.
   */
  datatype TextTable = TextTable(runeOffsets: seq<u32>, endRunes: seq<u32>, bounds: seq<u32>,
                                 mapped: seq<byte>, fileName: bool)

  ghost predicate Tabulates(t: TextTable, files: seq<seq<byte>>) {
    && |Bytes(files)| < MaxU32 && |t.mapped| <= MaxU32
    && Sampled(t.runeOffsets, Flat(Tokenize(files)))
    && t.endRunes == Ends(Tokenize(files))
    && |t.bounds| == (if files == [] then 0 else |files| + 1)
    && (forall d :: 0 <= d < |t.bounds| ==> t.bounds[d] == |Bytes(files[..d])|)
    && Bytes(files) <= t.mapped
  }

  /** The window after the sample before position `p` lies in the file, so that it can be read. */
  ghost predicate Reads(t: TextTable, files: seq<seq<byte>>, p: nat)
    requires p <= |Flat(Tokenize(files))|
  {
    SampleOf(files, p) + ContentWindow <= |t.mapped|
  }

  /** The sample before position `p`: the bytes of the runes up to it. */
  ghost function SampleOf(files: seq<seq<byte>>, p: nat): nat
    requires p <= |Flat(Tokenize(files))|
  {
    Width(Flat(Tokenize(files))[..100 * (p / 100)])
  }

  /** The bytes that are walked through: names to the end of the last one, contents as far as the window goes. */
  ghost function ViewOf(t: TextTable, files: seq<seq<byte>>, p: nat): seq<byte>
    requires p <= |Flat(Tokenize(files))| && SampleOf(files, p) <= |Bytes(files)| <= |t.mapped| && (t.fileName || Reads(t, files, p))
  {
    if t.fileName then t.mapped[SampleOf(files, p)..|Bytes(files)|]
    else t.mapped[SampleOf(files, p)..SampleOf(files, p) + ContentWindow]
  }

  /** Walking from the sample to position `p` passes the bytes of the runes in between. */
  ghost predicate WalksRight(t: TextTable, files: seq<seq<byte>>, p: nat)
    requires p <= |Flat(Tokenize(files))| && SampleOf(files, p) <= |Bytes(files)| <= |t.mapped| && (t.fileName || Reads(t, files, p))
  {
    Offset(ViewOf(t, files, p), p % 100) == Window(files, p)
  }

  /** In bytes, rune `r` of document `d` comes after the earlier documents and the earlier runes. */
  lemma {:induction false} PositionWidth(files: seq<seq<byte>>, d: nat, r: nat)
    requires d < |files| && r <= |Tokens(files[d])|
    ensures Position(files, d, r) <= |Flat(Tokenize(files))|
    ensures Width(Flat(Tokenize(files))[..Position(files, d, r)]) == |Bytes(files[..d])| + Offset(files[d], r)
  {
    hide Flat, Width, Tokens, Suffix, Bytes;
    var docs := Tokenize(files);
    var before := files[..d];
    assert docs[..d] == Tokenize(before);
    DocIsSlice(docs, d);
    StartStep(docs, d);
    var flat, s := Flat(docs), Start(docs, d);
    WidthMonotone(flat, s, s + r);
    assert flat[s..End(docs, d)][..r] == flat[s..s + r];
    assert flat[s..s + r] == Tokens(files[d])[..r];
    WidthOfTokens(files[d], r);
    assert flat[..s] == Flat(docs[..d]) by { FlatPrefix(docs, d); }
    WidthOfCorpus(before);
  }

  lemma {:induction false} FlatPrefix(docs: Docs, d: nat)
    requires d <= |docs|
    ensures Flat(docs[..d]) <= Flat(docs)
  {
    if d == |docs| {
      assert docs[..d] == docs;
    } else {
      FlatPrefix(docs[..|docs| - 1], d);
      assert docs[..|docs| - 1][..d] == docs[..d];
    }
  }

  lemma BytesPrefix(files: seq<seq<byte>>, d: nat)
    requires d <= |files|
    ensures |Bytes(files[..d])| <= |Bytes(files)|
  {
    if d == |files| {
      assert files[..d] == files;
    } else {
      BytesPrefix(files[..|files| - 1], d);
      assert files[..|files| - 1][..d] == files[..d];
    }
  }

  /** Where all runes are one byte wide, rune and byte offsets agree. */
  lemma {:induction false} NarrowOffset(files: seq<seq<byte>>, d: nat, r: nat)
    requires Narrow(Flat(Tokenize(files))) && d < |files| && r <= |Tokens(files[d])|
    ensures Offset(files[d], r) == r
  {
    if r > 0 {
      NarrowOffset(files, d, r - 1);
      OffsetStep(files[d], r - 1);
      var docs := Tokenize(files);
      DocIsSlice(docs, d);
      StartStep(docs, d);
      assert Flat(docs)[Start(docs, d) + r - 1] == docs[d][r - 1];
    }
  }

  /** The sample before position `p` and the runes from there to `p`. */
  lemma SampleBefore(runeOffsets: seq<int>, files: seq<seq<byte>>, p: nat)
    requires Sampled(runeOffsets, Flat(Tokenize(files))) && p < |Flat(Tokenize(files))|
    ensures p / 100 < |runeOffsets|
    ensures Width(Flat(Tokenize(files))[..p]) == runeOffsets[p / 100] + Window(files, p)
    ensures runeOffsets[p / 100] == SampleOf(files, p)
  {
    var flat := Flat(Tokenize(files));
    var k := p / 100;
    WidthMonotone(flat, 100 * k, p);
    assert runeOffsets[k] == SampleAt(flat, k);
  }

  /** Where documents are closed, walking from the sample crosses the window, if all its bytes are in view. */
  lemma WalkFromSample(files: seq<seq<byte>>, tail: seq<byte>, p: nat, off: nat, view: nat)
    requires AllClosed(files) && p < |Flat(Tokenize(files))|
    requires off == SampleOf(files, p)
    requires off + view <= |Bytes(files) + tail|
    ensures var data := (Bytes(files) + tail)[off..off + view];
            Offset(data, p % 100) == Window(files, p) <==> Window(files, p) <= view
  {
    hide Flat, Tokenize, Bytes, Width, Suffix, AllClosed;
    var all := Bytes(files) + tail;
    var q := 100 * (p / 100);
    CorpusOffset(files, tail, q);
    CorpusOffset(files, tail, p);
    SuffixIsSlice(all, q);
    SuffixSuffix(all, q, p % 100);
    WidthMonotone(Flat(Tokenize(files)), q, p);
    assert Offset(all[off..], p % 100) == Window(files, p);
    assert all[off..][..view] == all[off..off + view];
    if Window(files, p) <= view {
      WalkTruncated(all[off..], view, p % 100);
    }
  }

  lemma ClosedWalksRight(t: TextTable, files: seq<seq<byte>>, p: nat)
    requires Tabulates(t, files) && AllClosed(files) && p < |Flat(Tokenize(files))| && (t.fileName || Reads(t, files, p))
    ensures SampleOf(files, p) <= |Bytes(files)|
    ensures WalksRight(t, files, p) <==> t.fileName || Window(files, p) <= ContentWindow
  {
    hide Flat, Tokenize, Bytes, Width, AllClosed, Window, Sampled, Offset;
    var off, tail := SampleOf(files, p), t.mapped[|Bytes(files)|..];
    assert t.mapped == Bytes(files) + tail;
    SampleInside(files, p);
    WindowInside(files, p);
    WalkFromSample(files, tail, p, off, if t.fileName then |Bytes(files)| - off else ContentWindow);
  }

  /** The lookup of a rune can succeed: its window is read and walked through right, or is not read and 0 is right. */
  ghost predicate Found(t: TextTable, files: seq<seq<byte>>, p: nat, r: nat)
    requires p <= |Flat(Tokenize(files))| && SampleOf(files, p) <= |Bytes(files)| <= |t.mapped|
  {
    if t.fileName || Reads(t, files, p) then WalksRight(t, files, p) else r == 0
  }

  /**
   * findOffset: the byte offset, inside its document, of rune `r` of document `idx`. It
   * is exact if and only if walking from the last sample passes the bytes of the runes
   * in between. A window that goes past the end of the file is an error, and 0. Where
   * documents are closed that is if and only if those bytes fit in the window; file
   * names are read without a window.
   */
  method FindOffset(t: TextTable, plainASCII: bool, idx: u32, r: u32, ghost files: seq<seq<byte>>) returns (off: u32)
    requires Tabulates(t, files) && idx < |files| && r < |Tokens(files[idx])|
    requires plainASCII ==> Narrow(Flat(Tokenize(files)))
    ensures Position(files, idx, r) < |Flat(Tokenize(files))| && SampleOf(files, Position(files, idx, r)) <= |Bytes(files)|
    ensures plainASCII ==> off == Offset(files[idx], r)
    ensures !plainASCII ==> (off == Offset(files[idx], r) <==> Found(t, files, Position(files, idx, r), r))
    ensures !plainASCII && AllClosed(files) ==>
              (off == Offset(files[idx], r) <==>
               t.fileName || (if Reads(t, files, Position(files, idx, r)) then Window(files, Position(files, idx, r)) <= ContentWindow else r == 0))
  {
    hide Flat, Tokenize, Bytes, Width, Tokens, Offset, AllClosed, Sampled, Window, Narrow, SampleOf, WalksRight;
    ghost var p := Position(files, idx, r);
    PositionBounds(files, idx, r);
    SampleInside(files, p);
    if plainASCII {
      NarrowOffset(files, idx, r);
      return r;
    }
    var absR: u32 := r + if idx > 0 then t.endRunes[idx - 1] else 0;
    assert absR == p by { StartIsEnd(files, idx); }
    SampleBefore(t.runeOffsets, files, p);
    var fileStartByte := t.bounds[idx];
    var byteOff := t.runeOffsets[absR / 100];
    var left := absR % 100;
    if AllClosed(files) && (t.fileName || Reads(t, files, p)) {
      ClosedWalksRight(t, files, p);
    }
    if !t.fileName && byteOff + ContentWindow > |t.mapped| {
      ZeroOffset(files[idx], r);
      return 0;
    }
    var view := if t.fileName then t.bounds[|t.bounds| - 1] - byteOff else ContentWindow;
    assert files[..|files|] == files;
    var data := t.mapped[byteOff..byteOff + view];
    var end: int := Walk(data, byteOff, left);
    off := Wrap(end - fileStartByte);
    LookupIff(t, files, idx, r, p, data, off);
  }

  /** What has been walked, counted from the start of the document, is right exactly if the walk is. */
  lemma LookupIff(t: TextTable, files: seq<seq<byte>>, idx: u32, r: u32, p: nat, data: seq<byte>, off: u32)
    requires Tabulates(t, files) && idx < |files| && r < |Tokens(files[idx])| && p == Position(files, idx, r)
    requires p < |Flat(Tokenize(files))| && SampleOf(files, p) <= |Bytes(files)| && (t.fileName || Reads(t, files, p))
    requires data == ViewOf(t, files, p) && off == Wrap(SampleOf(files, p) + Offset(data, p % 100) - t.bounds[idx])
    ensures off == Offset(files[idx], r) <==> WalksRight(t, files, p)
  {
    hide Flat, Tokenize, Bytes, Width, Tokens, Offset, Sampled, Window, SampleOf;
    SampleBefore(t.runeOffsets, files, p);
    PositionWidth(files, idx, r);
    WindowInside(files, p);
  }

  lemma ZeroOffset(text: seq<byte>, r: nat)
    requires r <= |Tokens(text)|
    ensures Offset(text, r) == 0 <==> r == 0
  {
    hide Tokens;
    if r > 0 {
      OffsetInjective(text, 0, r);
    }
    assert Offset(text, 0) == 0;
  }

  lemma PositionBounds(files: seq<seq<byte>>, d: nat, r: nat)
    requires d < |files| && r < |Tokens(files[d])|
    ensures Position(files, d, r) < |Flat(Tokenize(files))| <= |Bytes(files)|
  {
    DocIsSlice(Tokenize(files), d);
    StartStep(Tokenize(files), d);
    WidthOfCorpus(files);
  }

  lemma StartIsEnd(files: seq<seq<byte>>, d: nat)
    requires d < |files|
    ensures Start(Tokenize(files), d) == if d > 0 then Ends(Tokenize(files))[d - 1] else 0
  {
    StartStep(Tokenize(files), 0);
  }

  lemma SampleInside(files: seq<seq<byte>>, p: nat)
    requires p < |Flat(Tokenize(files))|
    ensures SampleOf(files, p) <= |Bytes(files)|
  {
    var flat := Flat(Tokenize(files));
    WidthOfCorpus(files);
    WidthMonotone(flat, 100 * (p / 100), |flat|);
    assert flat[..|flat|] == flat;
  }

  lemma WindowInside(files: seq<seq<byte>>, p: nat)
    requires p < |Flat(Tokenize(files))|
    ensures SampleOf(files, p) + Window(files, p) <= |Bytes(files)|
  {
    var flat := Flat(Tokenize(files));
    var q := 100 * (p / 100);
    WidthOfCorpus(files);
    WidthMonotone(flat, q, p);
    WidthMonotone(flat, p, |flat|);
    assert flat[..|flat|] == flat;
  }

  // ----- documents that are not closed -----

  /** Walking through `s` and `t` together passes the runes of each on its own. */
  ghost predicate WalksAsApart(s: seq<byte>, t: seq<byte>, r: nat)
    requires r <= |Tokens(s) + Tokens(t)|
  {
    Offset(s + t, r) == Width((Tokens(s) + Tokens(t))[..r])
  }

  /** The first rune of an open end is passed together with what completes it; the runes before it change nothing. */
  lemma {:induction false} OpenEndMiscounts(s: seq<byte>) returns (t: seq<byte>, r: nat)
    requires !Closed(s)
    ensures 0 < r <= |Tokens(s)| && t != [] && |t| <= 3 && !WalksAsApart(s, t, r)
    ensures Offset(s + t, r) <= |s + t| && Width((Tokens(s) + Tokens(t))[..r]) < Offset(s + t, r)
    decreases |s|
  {
    if Open(s) {
      t := OpenCompletes(s);
      r := 1;
      FirstMiscounts(s, t);
    } else {
      var n := Decode(s).size;
      var r';
      t, r' := OpenEndMiscounts(s[n..]);
      r := r' + 1;
      LaterMiscounts(s, t, n, r');
    }
  }

  lemma FirstMiscounts(s: seq<byte>, t: seq<byte>)
    requires s != [] && Decode(s + t).size == |s + t| > |s|
    ensures t != [] && |t| <= 3 && |Tokens(s)| >= 1 && Width((Tokens(s) + Tokens(t))[..1]) < Offset(s + t, 1)
  {
    hide Decode, Tokens, Offset, Width;
    FirstWidth(s, Tokens(t));
    OneFurther(s + t, 0);
  }

  lemma LaterMiscounts(s: seq<byte>, t: seq<byte>, n: nat, r: nat)
    requires s != [] && !Open(s) && n == Decode(s).size && r <= |Tokens(s[n..]) + Tokens(t)|
    ensures |Tokens(s)| == 1 + |Tokens(s[n..])|
    ensures Offset(s + t, r + 1) == n + Offset(s[n..] + t, r)
    ensures Width((Tokens(s) + Tokens(t))[..r + 1]) == n + Width((Tokens(s[n..]) + Tokens(t))[..r])
  {
    hide Decode, Open, Tokens, Offset, Width;
    DecodeStable(s, t);
    TokensCons(s);
    assert (s + t)[n..] == s[n..] + t;
    OneFurther(s + t, r);
    WidthCons(Decode(s), Tokens(s[n..]), Tokens(t), r);
  }

  lemma FirstWidth(s: seq<byte>, more: seq<Token>)
    requires s != []
    ensures |Tokens(s)| >= 1 && Width((Tokens(s) + more)[..1]) == Decode(s).size <= |s|
  {
    hide Decode, Tokens;
    TokensCons(s);
    var ts := (Tokens(s) + more)[..1];
    assert ts == [Decode(s)] && ts[..0] == [];
  }

  lemma WidthCons(x: Token, a: seq<Token>, b: seq<Token>, r: nat)
    requires r <= |a + b|
    ensures Width((([x] + a) + b)[..r + 1]) == x.size + Width((a + b)[..r])
  {
    var rest := (a + b)[..r];
    assert (([x] + a) + b)[..r + 1] == [x] + rest;
    WidthAppend([x], rest);
    assert [x][..0] == [];
  }

  /** Exactly the closed documents are walked through right, whatever document follows. */
  lemma ClosedIffWalksAsApart(s: seq<byte>)
    ensures Closed(s) <==> forall t: seq<byte>, r: nat :: r <= |Tokens(s) + Tokens(t)| ==> WalksAsApart(s, t, r)
  {
    hide Tokens, Closed, Width, Offset;
    if Closed(s) {
      forall t: seq<byte>, r: nat | r <= |Tokens(s) + Tokens(t)| ensures WalksAsApart(s, t, r) {
        TokensAppend(s, t);
        WidthOfTokens(s + t, r);
      }
    } else {
      var t, r := OpenEndMiscounts(s);
    }
  }

  lemma TwoFiles(s: seq<byte>, t: seq<byte>)
    ensures Flat(Tokenize([s, t])) == Tokens(s) + Tokens(t) && Bytes([s, t]) == s + t && Start(Tokenize([s, t]), 1) == |Tokens(s)|
  {
    hide Tokens, Flat;
    assert [s, t] == [s] + [t];
    TokenizeAppend([s], t);
    FlatAppend(Tokenize([s]), Tokens(t));
    OneFile(s);
    assert [s][..0] == [];
    assert Tokenize([s, t])[..1] == Tokenize([s]);
  }

  /** The positions before the first sample but the one at 0 are looked up by walking from the start. */
  lemma LookupFromStart(tbl: TextTable, s: seq<byte>, t: seq<byte>, r: nat)
    requires Tabulates(tbl, [s, t]) && r < 100 && r <= |Tokens(s) + Tokens(t)|
    ensures |Flat(Tokenize([s, t]))| == |Tokens(s) + Tokens(t)| && SampleOf([s, t], r) == 0 && |Bytes([s, t])| <= |tbl.mapped|
    ensures Window([s, t], r) == Width((Tokens(s) + Tokens(t))[..r])
    ensures |s + t| <= |tbl.mapped| && tbl.mapped[..|s + t|] == s + t
  {
    hide Tokens, Width, Sampled;
    TwoFiles(s, t);
    FirstHundred([s, t], r);
  }

  lemma FirstHundred(files: seq<seq<byte>>, p: nat)
    requires p < 100 && p <= |Flat(Tokenize(files))|
    ensures SampleOf(files, p) == 0 && Window(files, p) == Width(Flat(Tokenize(files))[..p])
  {
    hide Flat, Tokenize;
    var flat := Flat(Tokenize(files));
    assert p / 100 == 0 && flat[..0] == [] && flat[0..p] == flat[..p];
  }

  /**
   * For every short document that is not closed there is a next one with which a rune of the first is looked up wrong:
   * the walk takes the first byte of its open end for the start of a longer rune.
   */
  lemma UnclosedLookupFails(s: seq<byte>) returns (t: seq<byte>, r: nat)
    requires !Closed(s) && |s| < 100
    ensures 0 < r <= |Tokens(s)| && r <= |Flat(Tokenize([s, t]))| && SampleOf([s, t], r) == 0
    ensures forall tbl: TextTable :: Tabulates(tbl, [s, t]) && (tbl.fileName || Reads(tbl, [s, t], r)) ==>
              |Bytes([s, t])| <= |tbl.mapped| && !WalksRight(tbl, [s, t], r)
  {
    hide Tokens, Closed, Width, Sampled, Offset, Window, Flat, Tokenize, Bytes;
    t, r := OpenEndMiscounts(s);
    OffsetEnds(s);
    TwoFiles(s, t);
    FirstHundred([s, t], r);
    forall tbl: TextTable | Tabulates(tbl, [s, t]) && (tbl.fileName || Reads(tbl, [s, t], r))
      ensures |Bytes([s, t])| <= |tbl.mapped| && !WalksRight(tbl, [s, t], r)
    {
      LookupFromStart(tbl, s, t, r);
      var view := ViewOf(tbl, [s, t], r);
      assert view[..|s + t|] == s + t;
      WalkTruncatedBack(view, |s + t|, r);
    }
  }

  /** What is passed in more bytes is not less than in fewer, if it is inside them. */
  lemma WalkTruncatedBack(s: seq<byte>, w: nat, r: nat)
    requires w <= |s|
    ensures Offset(s[..w], r) <= Offset(s, r)
  {
    if Offset(s, r) <= w {
      WalkTruncated(s, w, r);
    }
  }

  /** Two documents that split a rune between them: the second rune of the second one is at byte 1, and found after that. */
  lemma SplitRuneLookup(tbl: TextTable)
    requires Tabulates(tbl, [[0xe2, 0x82], [0xac, 0x61]]) && !tbl.fileName && |tbl.mapped| >= ContentWindow
    ensures var files: seq<seq<byte>> := [[0xe2, 0x82], [0xac, 0x61]];
            && Position(files, 1, 1) == 3 < |Flat(Tokenize(files))| && Offset(files[1], 1) == 1
            && SampleOf(files, 3) == 0 && |Bytes(files)| == 4 && Reads(tbl, files, 3)
            && Window(files, 3) == 3 && Offset(ViewOf(tbl, files, 3), 3) > 3 && !WalksRight(tbl, files, 3)
  {
    var a, b: seq<byte> := [0xe2, 0x82], [0xac, 0x61];
    SplitRuneTokens(a, b);
    hide Tokens, Width, Sampled, Flat, Tokenize, Bytes;
    TwoFiles(a, b);
    LookupFromStart(tbl, a, b, 3);
    var view := ViewOf(tbl, [a, b], 3);
    assert view[..4] == a + b;
    SplitRuneWalk(view);
  }

  lemma SplitRuneTokens(a: seq<byte>, b: seq<byte>)
    requires a == [0xe2, 0x82] && b == [0xac, 0x61]
    ensures |Tokens(a)| == 2 == |Tokens(b)| && Width((Tokens(a) + Tokens(b))[..3]) == 3 && Offset(b, 1) == 1
  {
    assert Decode(a) == Token(RuneError, 1) && Decode([0x82]) == Token(RuneError, 1);
    assert Decode(b) == Token(RuneError, 1) && Decode([0x61]) == Token(0x61, 1);
    assert a[1..] == [0x82] && [0x82][1..] == [] && b[1..] == [0x61] && [0x61][1..] == [];
    hide Decode;
    assert Tokens([0x82]) == [Token(RuneError, 1)] && Tokens([0x61]) == [Token(0x61, 1)];
    assert Tokens(a) == [Token(RuneError, 1)] + Tokens([0x82]);
    assert Tokens(b) == [Token(RuneError, 1)] + Tokens([0x61]);
    WidthOfSame((Tokens(a) + Tokens(b))[..3], 1);
  }

  lemma SplitRuneWalk(view: seq<byte>)
    requires |view| >= 4 && view[..4] == [0xe2, 0x82, 0xac, 0x61]
    ensures Offset(view, 3) > 3
  {
    assert view[0] == 0xe2 && view[1] == 0x82 && view[2] == 0xac && view[3] == 0x61 by {
      assert view[0] == view[..4][0] && view[1] == view[..4][1] && view[2] == view[..4][2] && view[3] == view[..4][3];
    }
    assert WellEncoded(view) && Decode(view).size == 3;
    var rest := view[3..];
    assert rest[0] == 0x61 && Decode(rest).size == 1;
    assert Offset(view, 3) == 3 + Offset(rest, 2);
    assert Offset(rest, 2) == 1 + Offset(rest[1..], 1);
  }

  // ----- when the window is wide enough -----

  lemma {:induction false} WidthAtMost(ts: seq<Token>, w: nat)
    requires forall i :: 0 <= i < |ts| ==> ts[i].size <= w
    ensures Width(ts) <= w * |ts|
  {
    if ts != [] {
      WidthAtMost(ts[..|ts| - 1], w);
    }
  }

  /** Runes of at most three bytes never outrun the window. */
  lemma ThreeByteRunesFit(files: seq<seq<byte>>, p: nat)
    requires p <= |Flat(Tokenize(files))| && forall i :: 0 <= i < |Flat(Tokenize(files))| ==> Flat(Tokenize(files))[i].size <= 3
    ensures Window(files, p) <= ContentWindow
  {
    hide Flat, Tokenize, Width;
    WidthAtMost(Flat(Tokenize(files))[100 * (p / 100)..p], 3);
  }

  /** A text of `n` times the same rune, U+1F600, which takes four bytes. */
  ghost function Wide(n: nat): seq<byte> {
    if n == 0 then [] else Encode(0x1F600) + Wide(n - 1)
  }

  lemma {:induction false} WideTokens(n: nat)
    ensures |Tokens(Wide(n))| == n && forall i :: 0 <= i < n ==> Tokens(Wide(n))[i] == Token(0x1F600, 4)
    ensures Closed(Wide(n))
  {
    if n > 0 {
      var e, rest := Encode(0x1F600), Wide(n - 1);
      assert |e| == 4;
      DecodeEncode(0x1F600, rest);
      WideTokens(n - 1);
      assert (e + rest)[4..] == rest;
      assert !Open(e + rest);
    }
  }

  lemma {:induction false} WidthOfSame(ts: seq<Token>, w: nat)
    requires forall i :: 0 <= i < |ts| ==> ts[i].size == w
    ensures Width(ts) == w * |ts|
  {
    if ts != [] {
      WidthOfSame(ts[..|ts| - 1], w);
    }
  }

  lemma OneFile(f: seq<byte>)
    ensures Flat(Tokenize([f])) == Tokens(f) && Start(Tokenize([f]), 0) == 0
  {
    hide Tokens;
    var docs := Tokenize([f]);
    assert docs == [Tokens(f)] && docs[..0] == [];
    assert Flat(docs) == Flat(docs[..0]) + docs[0];
  }

  /** With more than seventy-five runes of four bytes after a sample the lookup of the next one is wrong. */
  lemma FourByteRunesOutrun(r: nat)
    requires 75 < r < 100
    ensures var files := [Wide(r + 1)];
            && AllClosed(files) && r < |Tokens(files[0])|
            && Position(files, 0, r) <= |Flat(Tokenize(files))| && Window(files, Position(files, 0, r)) == 4 * r > ContentWindow
  {
    hide Wide, Tokens, Flat, Width, Closed;
    var files := [Wide(r + 1)];
    WideTokens(r + 1);
    OneFile(Wide(r + 1));
    WidthOfSame(Flat(Tokenize(files))[0..r], 4);
  }
}
