/**
 * The slice that a case sensitive comparison takes (matchiter.go:45): as many bytes as the pattern has, from the
 * candidate on. It may go past the end of the document, but not past the end of the file.
 */
module ContentSlices {
  import opened Machine
  import opened Utf8
  import opened Corpus
  import opened RuneLookup
  import opened CaseFolding
  import opened TrigramLookup
  import opened NgramSearch

  /** Where the slice of a candidate at rune `r` of document `d` ends, counted from the first document. */
  ghost function SliceEnd(files: seq<seq<byte>>, d: nat, r: nat, pattern: seq<byte>): nat
    requires d < |files|
  {
    |Bytes(files[..d])| + Offset(files[d], r) + |pattern|
  }

  /** Wherever all runes of the pattern have room in a document, the slice ends within `size` bytes. */
  ghost predicate SlicesInside(files: seq<seq<byte>>, size: nat, pattern: seq<byte>) {
    forall d, r :: 0 <= d < |files| && 0 <= r && r + |Tokens(pattern)| <= |Tokens(files[d])| ==> SliceEnd(files, d, r, pattern) <= size
  }

  /** Document `d` is the last one with room for `n` runes. */
  ghost predicate LastWithRoom(files: seq<seq<byte>>, n: nat, d: nat) {
    d < |files| && n <= |Tokens(files[d])| && forall e :: d < e < |files| ==> |Tokens(files[e])| < n
  }

  lemma {:induction false} BytesGrow(files: seq<seq<byte>>, d: nat, e: nat)
    requires d < e <= |files|
    ensures |Bytes(files[..d])| + |files[d]| <= |Bytes(files[..e])|
    decreases e
  {
    var init := files[..e];
    assert init[..e - 1] == files[..e - 1];
    if d < e - 1 {
      BytesGrow(files, d, e - 1);
    }
  }

  /** The slice of an earlier candidate ends no later. */
  lemma SliceEndsGrow(files: seq<seq<byte>>, d: nat, r: nat, e: nat, s: nat, pattern: seq<byte>)
    requires d <= e < |files| && r <= |Tokens(files[d])| && s <= |Tokens(files[e])| && (d == e ==> r <= s)
    ensures SliceEnd(files, d, r, pattern) <= SliceEnd(files, e, s, pattern)
  {
    hide Tokens, Bytes, Offset;
    if d == e {
      OffsetMonotone(files[d], r, s);
    } else {
      BytesGrow(files, d, e);
    }
  }

  /** All slices end inside exactly if the last possible one does: at the end of the last document that has room. */
  lemma SlicesInsideIff(files: seq<seq<byte>>, size: nat, pattern: seq<byte>, last: nat)
    requires LastWithRoom(files, |Tokens(pattern)|, last)
    ensures SlicesInside(files, size, pattern) <==>
            SliceEnd(files, last, |Tokens(files[last])| - |Tokens(pattern)|, pattern) <= size
  {
    hide Tokens, SliceEnd;
    var n := |Tokens(pattern)|;
    var s := |Tokens(files[last])| - n;
    if SliceEnd(files, last, s, pattern) <= size {
      forall d, r | 0 <= d < |files| && 0 <= r && r + n <= |Tokens(files[d])| ensures SliceEnd(files, d, r, pattern) <= size {
        SliceEndsGrow(files, d, r, last, s, pattern);
      }
    }
  }

  /** A file with room for the pattern after the last document is enough. */
  lemma RoomAfterSuffices(files: seq<seq<byte>>, size: nat, pattern: seq<byte>)
    requires |Bytes(files)| + |pattern| <= size
    ensures SlicesInside(files, size, pattern)
  {
    hide Tokens, Bytes;
    forall d, r | 0 <= d < |files| && 0 <= r && r + |Tokens(pattern)| <= |Tokens(files[d])|
      ensures SliceEnd(files, d, r, pattern) <= size
    {
      BytesGrow(files, d, |files|);
      assert files[..|files|] == files;
    }
  }

  // ----- a slice that leaves the file -----

  /** `n` bytes that encode nothing. */
  ghost function Broken(n: nat): seq<byte> {
    if n == 0 then [] else [0xff] + Broken(n - 1)
  }

  /** `n` times U+FFFD. */
  ghost function Replacements(n: nat): seq<byte> {
    if n == 0 then [] else [0xef, 0xbf, 0xbd] + Replacements(n - 1)
  }

  lemma {:induction false} BrokenTokens(n: nat)
    ensures |Broken(n)| == n == |Tokens(Broken(n))| && Closed(Broken(n))
    ensures forall i :: 0 <= i < n ==> Tokens(Broken(n))[i].rune == RuneError
  {
    if n > 0 {
      var rest := Broken(n - 1);
      BrokenTokens(n - 1);
      assert ([0xff] + rest)[1..] == rest;
    }
  }

  lemma {:induction false} ReplacementTokens(n: nat)
    ensures |Replacements(n)| == 3 * n && |Tokens(Replacements(n))| == n && ValidUtf8(Replacements(n))
    ensures forall i :: 0 <= i < n ==> Tokens(Replacements(n))[i].rune == RuneError
  {
    if n > 0 {
      var e, rest: seq<byte> := [0xef, 0xbf, 0xbd], Replacements(n - 1);
      ReplacementTokens(n - 1);
      assert (e + rest)[3..] == rest;
      assert WellEncoded(e + rest) && RuneValue(e + rest) == RuneError;
    }
  }

  /**
   * A document of `n` bytes that encode nothing and the pattern of `n` times U+FFFD: rune by rune they are the same, so
   * the index offers the start of the document, and the slice there takes three times as many bytes as the document has.
   */
  lemma SliceLeavesFile(n: nat, size: nat, t: PostingTable, fold: Rune -> Rune)
    requires n >= 3 && t.Holds(Tokenize([Broken(n)]))
    ensures |Tokens(Replacements(n))| == n && |Tokens(Broken(n))| == n && Closed(Broken(n))
    ensures Offered(t, Matching(true, fold), Tokens(Replacements(n)), Tokens(Broken(n)), 0)
    ensures SlicesInside([Broken(n)], size, Replacements(n)) <==> 3 * n <= size
  {
    hide Tokens, Broken, Replacements, PostingTable.Holds, Offered, Closed, ValidUtf8;
    BrokenTokens(n);
    ReplacementTokens(n);
    var text, pattern := Broken(n), Replacements(n);
    assert RunesAt(Matching(true, fold), Tokens(pattern), Tokens(text), 0);
    PatternOffered(t, Matching(true, fold), Tokens(pattern), Tokenize([text]), 0, 0);
    SlicesInsideIff([text], size, pattern, 0);
    assert Offset(text, 0) == 0 && Bytes([text][..0]) == [];
  }
}
