/** Files made of sections (section.go): a writer that knows its offset, and sections that point into the file. */
module SectionFile {
  import opened Machine

  /** Big endian numbers. */
  function U32Bytes(n: u32): (b: seq<byte>)
    ensures |b| == 4
  {
    var x: int := n;
    [x / 0x100 / 0x100 / 0x100, x / 0x100 / 0x100 % 0x100, x / 0x100 % 0x100, x % 0x100]
  }

  function U32Of(b: seq<byte>): u32
    requires |b| == 4
  {
    var w: int, x: int, y: int, z: int := b[0], b[1], b[2], b[3];
    ((w * 0x100 + x) * 0x100 + y) * 0x100 + z
  }

  /** The value of a number in big endian. */
  function BigEndian(b: seq<byte>): nat {
    if b == [] then 0 else BigEndian(b[..|b| - 1]) * 0x100 + b[|b| - 1]
  }

  lemma BigEndianFour(b: seq<byte>)
    requires |b| == 4
    ensures BigEndian(b) == U32Of(b)
  {
    assert b[..3][..2] == b[..2] && b[..2][..1] == b[..1] && b[..1][..0] == [];
    assert BigEndian(b[..1]) == b[0];
    assert BigEndian(b[..2]) == BigEndian(b[..1]) * 0x100 + b[1];
    assert BigEndian(b[..3]) == BigEndian(b[..2]) * 0x100 + b[2];
  }

  /** Four bytes have the value of the number in big endian exactly if they are what is written. */
  lemma U32IsBigEndian(n: u32, b: seq<byte>)
    requires |b| == 4
    ensures BigEndian(b) == n <==> b == U32Bytes(n)
  {
    hide U32Bytes, U32Of;
    BigEndianFour(b);
    if b == U32Bytes(n) {
      U32RoundTrip(n);
    }
    if BigEndian(b) == n {
      BytesOfU32(b);
    }
  }

  lemma BytesOfU32(b: seq<byte>)
    requires |b| == 4
    ensures U32Bytes(U32Of(b)) == b
  {
    var w: int, x: int, y: int, z: int := b[0], b[1], b[2], b[3];
    var n: int := U32Of(b);
    DivMod(w * 0x100 + x, y * 0x100 + z, n);
  }

  lemma DivMod(high: int, low: int, n: int)
    requires n == high * 0x1_0000 + low && 0 <= low < 0x1_0000
    ensures n / 0x100 / 0x100 == high && n % 0x100 == low % 0x100 && n / 0x100 % 0x100 == low / 0x100
  {
  }

  lemma U32RoundTrip(n: u32)
    ensures U32Of(U32Bytes(n)) == n
  {
    var x: int := n;
    Horner(x);
    Horner(x / 0x100);
    Horner(x / 0x100 / 0x100);
  }

  lemma Horner(x: int)
    ensures x / 0x100 * 0x100 + x % 0x100 == x
  {
  }

  type u64 = x: int | 0 <= x <= 0xffff_ffff_ffff_ffff

  function U64Bytes(n: u64): (b: seq<byte>)
    ensures |b| == 8
  {
    U32Bytes(n / 0x1_0000_0000) + U32Bytes(n % 0x1_0000_0000)
  }

  function U64Of(b: seq<byte>): u64
    requires |b| == 8
  {
    U32Of(b[..4]) * 0x1_0000_0000 + U32Of(b[4..])
  }

  lemma U64RoundTrip(n: u64)
    ensures U64Of(U64Bytes(n)) == n
  {
    U32RoundTrip(n / 0x1_0000_0000);
    U32RoundTrip(n % 0x1_0000_0000);
  }

  lemma {:induction false} BigEndianShift(a: seq<byte>, b: seq<byte>)
    requires |b| <= 4
    ensures BigEndian(a + b) == BigEndian(a) * Shift(|b|) + BigEndian(b)
  {
    if b == [] {
      assert a + b == a;
    } else {
      var c := b[..|b| - 1];
      BigEndianShift(a, c);
      assert (a + b)[..|a + b| - 1] == a + c;
    }
  }

  function Shift(n: nat): nat
    requires n <= 4
  {
    [1, 0x100, 0x1_0000, 0x100_0000, 0x1_0000_0000][n]
  }

  /** The same of eight bytes. */
  lemma U64IsBigEndian(n: u64, b: seq<byte>)
    requires |b| == 8
    ensures BigEndian(b) == n <==> b == U64Bytes(n)
  {
    hide U32Bytes, BigEndian, U32Of;
    var high, low := n / 0x1_0000_0000, n % 0x1_0000_0000;
    U32IsBigEndian(high, b[..4]);
    U32IsBigEndian(low, b[4..]);
    BigEndianFour(b[4..]);
    assert b == b[..4] + b[4..];
    BigEndianShift(b[..4], b[4..]);
    assert b == U64Bytes(n) <==> b[..4] == U32Bytes(high) && b[4..] == U32Bytes(low);
  }

  function U32s(xs: seq<u32>): (b: seq<byte>)
    ensures |b| == 4 * |xs|
  {
    if xs == [] then [] else U32s(xs[..|xs| - 1]) + U32Bytes(xs[|xs| - 1])
  }

  function U64s(xs: seq<u64>): (b: seq<byte>)
    ensures |b| == 8 * |xs|
  {
    if xs == [] then [] else U64s(xs[..|xs| - 1]) + U64Bytes(xs[|xs| - 1])
  }

  lemma {:induction false} U32sAt(xs: seq<u32>, i: nat)
    requires i < |xs|
    ensures U32s(xs)[4 * i..4 * i + 4] == U32Bytes(xs[i])
  {
    var n := |xs| - 1;
    if i < n {
      U32sAt(xs[..n], i);
      assert U32s(xs)[4 * i..4 * i + 4] == U32s(xs[..n])[4 * i..4 * i + 4];
    }
  }

  lemma {:induction false} U64sAt(xs: seq<u64>, i: nat)
    requires i < |xs|
    ensures U64s(xs)[8 * i..8 * i + 8] == U64Bytes(xs[i])
  {
    var n := |xs| - 1;
    if i < n {
      U64sAt(xs[..n], i);
      assert U64s(xs)[8 * i..8 * i + 8] == U64s(xs[..n])[8 * i..8 * i + 8];
    }
  }

  /** Numbers of 64 bits, one after the other (write.go:51-55, 88-90). */
  method PutU64s(xs: seq<u64>) returns (b: seq<byte>)
    ensures b == U64s(xs)
  {
    hide U64Bytes;
    b := [];
    for i := 0 to |xs|
      invariant b == U64s(xs[..i])
    {
      assert xs[..i + 1][..i] == xs[..i];
      b := b + U64Bytes(xs[i]);
    }
    assert xs[..|xs|] == xs;
  }

  /** The loop of readSectionU32. */
  method ReadU32s(blob: seq<byte>, ghost xs: seq<u32>) returns (arr: seq<u32>)
    requires |blob| % 4 == 0
    ensures blob == U32s(xs) ==> arr == xs
  {
    arr := [];
    var rest := blob;
    while |rest| > 0
      invariant 4 * |arr| <= |blob| && rest == blob[4 * |arr|..]
      invariant blob == U32s(xs) ==> arr == xs[..|arr|]
      decreases |rest|
    {
      ghost var i := |arr|;
      assert rest[..4] == blob[4 * i..4 * i + 4];
      if blob == U32s(xs) {
        U32sAt(xs, i);
        U32RoundTrip(xs[i]);
      }
      arr := arr + [U32Of(rest[..4])];
      rest := rest[4..];
    }
  }

  /** The loop of readSectionU64. */
  method ReadU64s(blob: seq<byte>, ghost xs: seq<u64>) returns (arr: seq<u64>)
    requires |blob| % 8 == 0
    ensures blob == U64s(xs) ==> arr == xs
  {
    hide U64Of, U64Bytes;
    arr := [];
    var rest := blob;
    while |rest| > 0
      invariant 8 * |arr| <= |blob| && rest == blob[8 * |arr|..]
      invariant blob == U64s(xs) ==> arr == xs[..|arr|]
      decreases |rest|
    {
      ghost var i := |arr|;
      assert rest[..8] == blob[8 * i..8 * i + 8];
      if blob == U64s(xs) {
        U64sAt(xs, i);
        U64RoundTrip(xs[i]);
      }
      arr := arr + [U64Of(rest[..8])];
      rest := rest[8..];
    }
  }

  // ----- sections -----

  /** simpleSection: a range of bytes. */
  datatype Simple = Simple(off: u32, sz: u32)

  /** compoundSection: a range of bytes holding items, and the offsets of the items. */
  datatype Compound = Compound(data: Simple, offsets: seq<u32>, index: Simple)

  /** IndexFile.Read. */
  function ReadAt(file: seq<byte>, s: Simple): Result<seq<byte>> {
    if s.off + s.sz <= |file| then Ok(file[s.off..s.off + s.sz]) else Err("out of bounds")
  }

  /** The section that piece `i` of a file is. */
  ghost function SectionOf(pieces: seq<seq<byte>>, i: nat): Simple
    requires i < |pieces|
  {
    Simple(Wrap(|JoinAll(pieces[..i])|), Wrap(|pieces[i]|))
  }

  /** In a file below 2^32 bytes every section reads back as the piece that was written. */
  lemma ReadPiece(pieces: seq<seq<byte>>, i: nat)
    requires i < |pieces| && |JoinAll(pieces)| <= MaxU32
    ensures ReadAt(JoinAll(pieces), SectionOf(pieces, i)) == Ok(pieces[i])
    ensures SectionOf(pieces, i).off == |JoinAll(pieces[..i])| && SectionOf(pieces, i).sz == |pieces[i]|
  {
    hide JoinAll, ReadAt, Wrap;
    SmallWraps();
    JoinSplit(pieces, i);
    MiddlePart(JoinAll(pieces), JoinAll(pieces[..i]), pieces[i], JoinAll(pieces[i + 1..]));
  }

  lemma SmallWraps()
    ensures forall x :: 0 <= x <= MaxU32 ==> Wrap(x) == x
  {
  }

  lemma MiddlePart(file: seq<byte>, a: seq<byte>, b: seq<byte>, c: seq<byte>)
    requires file == a + b + c && |file| <= MaxU32
    ensures ReadAt(file, Simple(|a|, |b|)) == Ok(b)
  {
    assert file[|a|..|a| + |b|] == b;
  }

  lemma SectionStable(pieces: seq<seq<byte>>, more: seq<seq<byte>>, i: nat)
    requires i < |pieces|
    ensures SectionOf(pieces + more, i) == SectionOf(pieces, i)
  {
    assert (pieces + more)[..i] == pieces[..i];
  }

  /** Sections of different pieces are different if the first is not empty. */
  lemma SectionsDiffer(pieces: seq<seq<byte>>, i: nat, j: nat)
    requires i < j < |pieces| && pieces[i] != [] && |JoinAll(pieces)| <= MaxU32
    ensures SectionOf(pieces, i) != SectionOf(pieces, j)
  {
    ReadPiece(pieces, i);
    ReadPiece(pieces, j);
    assert pieces[..j][..i] == pieces[..i];
    JoinSplit(pieces[..j], i);
  }

  // ----- writing -----

  /** Subtraction in 32 bits. */
  function Minus(a: int, b: int): u32 {
    Wrap(a - b)
  }

  lemma WrapDifference(x: int, n: int)
    ensures Wrap(Wrap(x + n) - Wrap(x)) == Wrap(n)
    ensures Wrap(Wrap(x) + Wrap(n)) == Wrap(x + n)
  {
  }

  class Writer {
    var out: seq<byte>
    var off: u32

    /** What has been written, piece by piece. */
    ghost var pieces: seq<seq<byte>>

    ghost predicate Valid()
      reads this
    {
      out == JoinAll(pieces) && off == Wrap(|out|)
    }

    constructor ()
      ensures Valid() && pieces == []
    {
      out, off, pieces := [], 0, [];
    }

    /** Everything written between start and end of a section is one piece. */
    method Write(b: seq<byte>)
      requires off == Wrap(|out|)
      modifies this`out, this`off
      ensures out == old(out) + b && off == Wrap(|out|)
    {
      WrapDifference(|out|, |b|);
      off := Wrap(off + Wrap(|b|));
      out := out + b;
    }

    /** Close the piece that was begun when `from` bytes were written. */
    ghost method Piece(b: seq<byte>)
      requires out == JoinAll(pieces) + b
      modifies this`pieces
      ensures pieces == old(pieces) + [b] && out == JoinAll(pieces)
    {
      JoinOne(pieces, b);
      pieces := pieces + [b];
    }

    /** start, Write and end of a simpleSection. */
    method WriteSection(b: seq<byte>) returns (s: Simple)
      requires Valid()
      modifies this
      ensures Valid() && pieces == old(pieces) + [b] && s == SectionOf(pieces, |old(pieces)|)
    {
      hide JoinAll;
      var start := off;
      Write(b);
      s := Simple(start, Minus(off, start));
      WrapDifference(|old(out)|, |b|);
      Piece(b);
      assert pieces[..|pieces| - 1] == old(pieces);
    }
  }

  // ----- compound sections -----

  /** Where the items start, if the first starts at `start`. */
  ghost function OffsetsFrom(start: int, items: seq<seq<byte>>): (r: seq<u32>)
    ensures |r| == |items| && forall i :: 0 <= i < |items| ==> r[i] == Wrap(start + |JoinAll(items[..i])|)
  {
    seq(|items|, i requires 0 <= i < |items| => Wrap(start + |JoinAll(items[..i])|))
  }

  /** The compound section whose items are piece `k` and whose offsets are piece `k + 1`. */
  ghost function CompoundOf(pieces: seq<seq<byte>>, k: nat, items: seq<seq<byte>>): Compound
    requires k + 1 < |pieces|
  {
    Compound(SectionOf(pieces, k), OffsetsFrom(|JoinAll(pieces[..k])|, items), SectionOf(pieces, k + 1))
  }

  /** Pieces `k` and `k + 1` are the items and their offsets. */
  ghost predicate HoldsItems(pieces: seq<seq<byte>>, k: nat, items: seq<seq<byte>>) {
    && k + 1 < |pieces| && pieces[k] == JoinAll(items)
    && pieces[k + 1] == U32s(OffsetsFrom(|JoinAll(pieces[..k])|, items))
  }

  lemma OffsetsGrow(start: int, items: seq<seq<byte>>, item: seq<byte>)
    ensures OffsetsFrom(start, items + [item]) == OffsetsFrom(start, items) + [Wrap(start + |JoinAll(items)|)]
  {
    hide JoinAll;
    var more := items + [item];
    assert more[..|items|] == items;
    assert forall i :: 0 <= i < |items| ==> more[..i] == items[..i];
  }

  class CompoundSection {
    var data: Simple
    var offsets: seq<u32>
    var index: Simple

    ghost predicate Collecting(w: Writer, items: seq<seq<byte>>)
      reads this, w
    {
      && w.out == JoinAll(w.pieces) + JoinAll(items) && w.off == Wrap(|w.out|)
      && data.off == Wrap(|JoinAll(w.pieces)|)
      && offsets == OffsetsFrom(|JoinAll(w.pieces)|, items)
    }

    constructor ()
      ensures offsets == []
    {
      data, offsets, index := Simple(0, 0), [], Simple(0, 0);
    }

    method Start(w: Writer)
      requires w.Valid() && offsets == []
      modifies this`data
      ensures Collecting(w, [])
    {
      data := Simple(w.off, data.sz);
    }

    method AddItem(w: Writer, item: seq<byte>, ghost items: seq<seq<byte>>)
      requires Collecting(w, items)
      modifies this`offsets, w`out, w`off
      ensures Collecting(w, items + [item])
    {
      hide JoinAll, OffsetsFrom;
      OffsetsGrow(|JoinAll(w.pieces)|, items, item);
      JoinOne(items, item);
      offsets := offsets + [w.off];
      w.Write(item);
      assert JoinAll(w.pieces) + (JoinAll(items) + item) == JoinAll(w.pieces) + JoinAll(items) + item;
    }

    /** The end of the data. */
    method EndData(w: Writer, ghost items: seq<seq<byte>>)
      requires Collecting(w, items)
      modifies this`data, w`pieces
      ensures w.Valid() && w.pieces == old(w.pieces) + [JoinAll(items)] && data == SectionOf(w.pieces, |old(w.pieces)|)
    {
      hide JoinAll, OffsetsFrom;
      WrapDifference(|JoinAll(w.pieces)|, |JoinAll(items)|);
      data := data.(sz := Minus(w.off, data.off));
      w.Piece(JoinAll(items));
      assert w.pieces[..|old(w.pieces)|] == old(w.pieces);
    }

    /** The offsets, after the data. */
    method WriteIndex(w: Writer)
      requires w.Valid()
      modifies this`index, w
      ensures w.Valid() && w.pieces == old(w.pieces) + [U32s(offsets)] && index == SectionOf(w.pieces, |old(w.pieces)|)
    {
      hide JoinAll, U32s;
      var start := w.off;
      ghost var written, before := w.out, w.pieces;
      NoU32s();
      for i := 0 to |offsets|
        invariant w.off == Wrap(|w.out|) && w.pieces == before
        invariant w.out == written + U32s(offsets[..i])
      {
        U32sGrow(offsets, i);
        w.Write(U32Bytes(offsets[i]));
        assert written + (U32s(offsets[..i]) + U32Bytes(offsets[i])) == written + U32s(offsets[..i]) + U32Bytes(offsets[i]);
      }
      assert offsets[..|offsets|] == offsets;
      WrapDifference(|written|, |U32s(offsets)|);
      index := Simple(start, Minus(w.off, start));
      w.Piece(U32s(offsets));
      assert w.pieces[..|before|] == before;
    }

    method End(w: Writer, ghost items: seq<seq<byte>>) returns (c: Compound)
      requires Collecting(w, items)
      modifies this`data, this`index, w
      ensures w.Valid() && HoldsItems(w.pieces, |old(w.pieces)|, items)
      ensures w.pieces == old(w.pieces) + [JoinAll(items), w.pieces[|old(w.pieces)| + 1]]
      ensures c == CompoundOf(w.pieces, |old(w.pieces)|, items)
    {
      hide JoinAll, OffsetsFrom, U32s, SectionOf;
      ghost var before := w.pieces;
      EndData(w, items);
      WriteIndex(w);
      SectionStable(before + [JoinAll(items)], [U32s(offsets)], |before|);
      assert w.pieces[..|before|] == before;
      c := Compound(data, offsets, index);
    }
  }

  lemma NoU32s()
    ensures U32s([]) == []
  {
  }

  lemma U32sGrow(xs: seq<u32>, i: nat)
    requires i < |xs|
    ensures U32s(xs[..i + 1]) == U32s(xs[..i]) + U32Bytes(xs[i])
  {
    assert xs[..i + 1][..i] == xs[..i];
  }

  // ----- reading items -----

  /** The offsets relative to the first item, and the end of the last. */
  ghost function Relative(items: seq<seq<byte>>): (r: seq<int>)
    ensures |r| == if items == [] then 0 else |items| + 1
    ensures forall i :: 0 <= i < |r| ==> r[i] == |JoinAll(items[..i])|
  {
    if items == [] then [] else seq(|items| + 1, i requires 0 <= i <= |items| => |JoinAll(items[..i])|)
  }

  /** relativeIndex. */
  method RelativeIndex(c: Compound) returns (ri: seq<u32>)
    ensures |ri| == if c.offsets == [] then 0 else |c.offsets| + 1
    ensures forall i :: 0 <= i < |c.offsets| ==> ri[i] == Minus(c.offsets[i], c.offsets[0])
    ensures c.offsets != [] ==> ri[|c.offsets|] == c.data.sz
  {
    ri := [];
    for i := 0 to |c.offsets|
      invariant |ri| == i && forall j :: 0 <= j < i ==> ri[j] == Minus(c.offsets[j], c.offsets[0])
    {
      ri := ri + [Minus(c.offsets[i], c.offsets[0])];
    }
    if |c.offsets| > 0 {
      ri := ri + [c.data.sz];
    }
  }

  /** The relative index of a compound section is that of its items. */
  lemma RelativeIsExact(pieces: seq<seq<byte>>, k: nat, items: seq<seq<byte>>, ri: seq<u32>)
    requires HoldsItems(pieces, k, items) && |JoinAll(pieces)| <= MaxU32
    requires var c := CompoundOf(pieces, k, items);
             && |ri| == (if c.offsets == [] then 0 else |c.offsets| + 1)
             && (forall i :: 0 <= i < |c.offsets| ==> ri[i] == Minus(c.offsets[i], c.offsets[0]))
             && (c.offsets != [] ==> ri[|c.offsets|] == c.data.sz)
    ensures ri == Relative(items)
  {
    hide JoinAll, SectionOf, Wrap;
    ReadPiece(pieces, k);
    JoinSplit(pieces, k);
    var start := |JoinAll(pieces[..k])|;
    forall i | 0 <= i < |ri| ensures ri[i] == Relative(items)[i] {
      if i < |items| {
        RelativeEntry(items, start, i);
      } else {
        assert items[..i] == items;
      }
    }
  }

  lemma RelativeEntry(items: seq<seq<byte>>, start: nat, i: nat)
    requires i < |items| && start + |JoinAll(items)| <= MaxU32
    ensures Minus(OffsetsFrom(start, items)[i], OffsetsFrom(start, items)[0]) == |JoinAll(items[..i])|
  {
    hide JoinAll;
    JoinPrefix(items, i);
    NoJoin();
    assert items[..0] == [];
  }

  lemma NoJoin()
    ensures JoinAll<byte>([]) == []
  {
  }

  lemma JoinPrefix(items: seq<seq<byte>>, i: nat)
    requires i <= |items|
    ensures |JoinAll(items[..i])| <= |JoinAll(items)|
  {
    assert items == items[..i] + items[i..];
    JoinAppend(items[..i], items[i..]);
  }

  /** The bytes between two entries of the relative index are the item. */
  lemma ReadItem(pieces: seq<seq<byte>>, k: nat, items: seq<seq<byte>>, ri: seq<u32>, i: nat)
    requires HoldsItems(pieces, k, items) && |JoinAll(pieces)| <= MaxU32 && ri == Relative(items) && i < |items|
    ensures ri[i] <= ri[i + 1] && SectionOf(pieces, k).off + ri[i + 1] <= MaxU32
    ensures ReadAt(JoinAll(pieces), Simple(Wrap(SectionOf(pieces, k).off + ri[i]), Minus(ri[i + 1], ri[i]))) == Ok(items[i])
  {
    hide JoinAll, SectionOf, ReadAt, U32s, OffsetsFrom, Wrap;
    SmallWraps();
    ReadPiece(pieces, k);
    JoinSplit(pieces, k);
    JoinSplit(items, i);
    RelativeStep(items, i);
    Middle(JoinAll(pieces), JoinAll(pieces[..k]), pieces[k], JoinAll(pieces[k + 1..]),
           JoinAll(items[..i]), items[i], JoinAll(items[i + 1..]));
  }

  lemma RelativeStep(items: seq<seq<byte>>, i: nat)
    requires i < |items|
    ensures Relative(items)[i + 1] == Relative(items)[i] + |items[i]| && Relative(items)[i + 1] <= |JoinAll(items)|
  {
    hide JoinAll;
    assert items[..i + 1] == items[..i] + [items[i]];
    JoinOne(items[..i], items[i]);
    JoinPrefix(items, i + 1);
  }

  lemma Middle(file: seq<byte>, before: seq<byte>, piece: seq<byte>, after: seq<byte>, b: seq<byte>, c: seq<byte>, d: seq<byte>)
    requires file == before + piece + after && piece == b + c + d && |file| <= MaxU32
    ensures ReadAt(file, Simple(|before| + |b|, |c|)) == Ok(c)
  {
    assert file == (before + b) + c + (d + after);
    MiddlePart(file, before + b, c, d + after);
  }
}
