/** Packed trigrams (bits.go) and the choice of the two rarest ones (indexdata.go). */
module Ngrams {
  import opened Machine
  import opened Utf8

  const NgramSize: int := 3

  type Ngram = x: int | 0 <= x < 0x8000_0000_0000_0000

  /** runesToNGram: three runes in 21 bits each. */
  function Pack(a: Rune, b: Rune, c: Rune): Ngram {
    a * 0x400_0000_0000 + b * 0x20_0000 + c
  }

  /** ngramToRunes. */
  function Unpack(n: Ngram): (int, int, int) {
    (n / 0x400_0000_0000, n / 0x20_0000 % 0x20_0000, n % 0x20_0000)
  }

  lemma UnpackPack(a: Rune, b: Rune, c: Rune)
    ensures Unpack(Pack(a, b, c)) == (a, b, c)
  {
    var n := Pack(a, b, c);
    assert n == (a * 0x20_0000 + b) * 0x20_0000 + c;
    assert n / 0x20_0000 == a * 0x20_0000 + b;
    assert n / 0x400_0000_0000 == a;
  }

  /** Trigrams are in the order of their runes, the first rune first; so is the list of them in a shard. */
  lemma PackOrder(a: Rune, b: Rune, c: Rune, d: Rune, e: Rune, f: Rune)
    ensures Pack(a, b, c) < Pack(d, e, f) <==> a < d || (a == d && (b < e || (b == e && c < f)))
  {
    assert b * 0x20_0000 + c < 0x400_0000_0000 && e * 0x20_0000 + f < 0x400_0000_0000;
  }

  /** The packed trigram of the three tokens starting at `i`. */
  function Trigram(ts: seq<Token>, i: nat): Ngram
    requires i + 3 <= |ts|
  {
    Pack(ts[i].rune, ts[i + 1].rune, ts[i + 2].rune)
  }

  /** runeNgramOff: a trigram of the query string and where it stands. */
  datatype NgramOff = NgramOff(ngram: Ngram, byteSize: nat, byteOff: nat, runeOff: nat)

  /** `e` is the trigram of `str` starting at token `i`. */
  ghost predicate Describes(e: NgramOff, str: seq<byte>, i: nat) {
    && i + 3 <= |Tokens(str)|
    && e.ngram == Trigram(Tokens(str), i)
    && e.byteOff == Offset(str, i)
    && e.byteOff + e.byteSize == Offset(str, i + 3)
    && e.runeOff == i + 2
  }

  /** splitNGrams: one entry for each three consecutive runes of `str`, in order. */
  method SplitNGrams(str: seq<byte>) returns (result: seq<NgramOff>)
    ensures |result| == if |Tokens(str)| < 3 then 0 else |Tokens(str)| - 2
    ensures forall i :: 0 <= i < |result| ==> Describes(result[i], str, i)
  {
    ghost var ts := Tokens(str);
    result := [];
    var rest := str;
    var g0: Rune, g1: Rune, g2: Rune := 0, 0, 0;
    var o0, o1, o2 := 0, 0, 0;
    var runeCount, i := 0, 0;
    var chars := -1;
    while rest != []
      invariant runeCount <= |ts| && rest == Suffix(str, runeCount)
      invariant i == Offset(str, runeCount) && chars == runeCount - 1
      invariant runeCount >= 1 ==> g2 == ts[runeCount - 1].rune && o2 == Offset(str, runeCount - 1)
      invariant runeCount >= 2 ==> g1 == ts[runeCount - 2].rune && o1 == Offset(str, runeCount - 2)
      invariant o1 <= i && o2 <= i
      invariant |result| == if runeCount < 3 then 0 else runeCount - 2
      invariant forall j :: 0 <= j < |result| ==> Describes(result[j], str, j)
      decreases |rest|
    {
      SuffixTokens(str, runeCount);
      assert runeCount < |ts|;
      SuffixStep(str, runeCount);
      var t := Decode(rest);
      chars := chars + 1;
      rest := rest[t.size..];
      g0, o0 := g1, o1;
      g1, o1 := g2, o2;
      g2, o2 := t.rune, i;
      OffsetStep(str, runeCount);
      i := i + t.size;
      runeCount := runeCount + 1;
      if runeCount < NgramSize {
        continue;
      }
      var e := NgramOff(Pack(g0, g1, g2), i - o0, o0, chars);
      assert Describes(e, str, runeCount - 3);
      result := result + [e];
    }
    SuffixTokens(str, runeCount);
  }

  /** firstMinarg: the first index of the least value; the length when no value is below MaxU32. */
  method FirstMinarg(xs: seq<u32>) returns (j: nat)
    ensures j <= |xs|
    ensures j == |xs| <==> forall i :: 0 <= i < |xs| ==> xs[i] == MaxU32
    ensures j < |xs| ==> forall i :: 0 <= i < |xs| ==> xs[j] <= xs[i] && (i < j ==> xs[j] < xs[i])
  {
    var m: u32 := MaxU32;
    j := |xs|;
    for i := 0 to |xs|
      invariant if j == |xs| then m == MaxU32 else j < i && xs[j] == m < MaxU32
      invariant forall k :: 0 <= k < i ==> m <= xs[k] && (k < j < |xs| ==> m < xs[k])
    {
      if xs[i] < m {
        m := xs[i];
        j := i;
      }
    }
  }

  /** lastMinarg: the last index of the least value; the length only for the empty list. */
  method LastMinarg(xs: seq<u32>) returns (j: nat)
    ensures j <= |xs|
    ensures j == |xs| <==> xs == []
    ensures j < |xs| ==> forall i :: 0 <= i < |xs| ==> xs[j] <= xs[i] && (j < i ==> xs[j] < xs[i])
  {
    var m: u32 := MaxU32;
    j := |xs|;
    for i := 0 to |xs|
      invariant if j == |xs| then i == 0 && m == MaxU32 else j < i && xs[j] == m
      invariant forall k :: 0 <= k < i ==> m <= xs[k] && (j < k ==> m < xs[k])
    {
      if xs[i] <= m {
        m := xs[i];
        j := i;
      }
    }
  }

  ghost predicate IsFirstMin(xs: seq<int>, j: nat) {
    j < |xs| && forall i :: 0 <= i < |xs| ==> xs[j] <= xs[i] && (i < j ==> xs[j] < xs[i])
  }

  ghost predicate IsLastMin(xs: seq<int>, j: nat) {
    j < |xs| && forall i :: 0 <= i < |xs| ==> xs[j] <= xs[i] && (j < i ==> xs[j] < xs[i])
  }

  /** `a` is the first rarest trigram, `b` the last rarest of the others. */
  ghost predicate Rarest(frequencies: seq<int>, a: nat, b: nat) {
    IsFirstMin(frequencies, a) && IsLastMin(frequencies[a := MaxU32], b)
  }

  /** The two trigrams, in pattern order. */
  ghost predicate AreRarest(frequencies: seq<int>, first: nat, last: nat) {
    first <= last && (Rarest(frequencies, first, last) || Rarest(frequencies, last, first))
  }

  lemma RarestUnique(fs: seq<int>, first: nat, last: nat, first': nat, last': nat)
    requires AreRarest(fs, first, last) && AreRarest(fs, first', last')
    ensures first == first' && last == last'
  {
    var a, b := if Rarest(fs, first, last) then (first, last) else (last, first),
                if Rarest(fs, first', last') then (first', last') else (last', first');
    assert fs[a.0] <= fs[b.0] && fs[b.0] <= fs[a.0];
    assert a.0 == b.0;
    var others := fs[a.0 := MaxU32];
    assert others[a.1] <= others[b.1] && others[b.1] <= others[a.1];
  }

  /**
   * The choice made by iterateNgrams: the first rarest trigram and the last rarest
   * of the others, in pattern order. They coincide only for a single trigram.
   */
  method ChooseTwo(frequencies: seq<u32>) returns (first: nat, last: nat)
    requires frequencies != []
    requires forall i :: 0 <= i < |frequencies| ==> frequencies[i] < MaxU32
    ensures first <= last < |frequencies|
    ensures first == last <==> |frequencies| == 1
    ensures forall i :: 0 <= i < |frequencies| && i != first && i != last ==>
              frequencies[first] <= frequencies[i] && frequencies[last] <= frequencies[i]
    ensures AreRarest(frequencies, first, last)
  {
    first := FirstMinarg(frequencies);
    assert first < |frequencies| by { assert frequencies[0] < MaxU32; }
    var others := frequencies[first := MaxU32];
    last := LastMinarg(others);
    assert forall i :: 0 <= i < |others| && i != first ==> others[i] == frequencies[i];
    if |frequencies| > 1 {
      ghost var k := if first == 0 then 1 else 0;
      assert others[k] == frequencies[k] < MaxU32;
    }
    assert Rarest(frequencies, first, last);
    if first > last {
      first, last := last, first;
    }
  }
}
