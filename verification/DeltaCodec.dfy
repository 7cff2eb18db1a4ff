/**
 * The delta codecs of bits.go. A list of 32-bit offsets is stored as varint
 * differences; differences and sums wrap modulo 2^32, so the lists need not
 * be sorted.
 */
module DeltaCodec {
  import opened Machine
  import Varint

  /** The bytes for `xs` when the previous offset was `last`. */
  function Deltas(xs: seq<int>, last: int): seq<byte> {
    if xs == [] then [] else Varint.Put(Wrap(xs[0] - last)) + Deltas(xs[1..], xs[0])
  }

  /** The offset the next difference is taken from. */
  function LastOr(xs: seq<int>, last: int): int {
    if xs == [] then last else xs[|xs| - 1]
  }

  /** Deltas preceded by the number of offsets. */
  function SizedDeltas(xs: seq<int>): seq<byte> {
    Varint.Put(|xs|) + Deltas(xs, 0)
  }

  /** The offsets in `data`; None where the Go readers would panic or spin. */
  function Parse(data: seq<byte>, last: u32): Option<seq<u32>>
    decreases |data|
  {
    if data == [] then Some([])
    else
      match Varint.Get(data)
      case Done(delta, n) =>
        var x := Wrap(last + delta);
        (match Parse(data[n..], x)
         case Some(xs) => Some([x] + xs)
         case None => None)
      case Short => None
      case Overflow => None
  }

  /** The offsets after the leading count, which is only a capacity hint. */
  function ParseSized(data: seq<byte>): Option<seq<u32>> {
    match Varint.Get(data)
    case Done(_, n) => Parse(data[n..], 0)
    case Short => None
    case Overflow => None
  }

  lemma WrapInverse(x: u32, last: u32)
    ensures Wrap(last + Wrap(x - last)) == x
  {
  }

  /** Every list of offsets reads back, sorted or not. */
  lemma {:induction false} ParseDeltas(xs: seq<u32>, last: u32)
    ensures Parse(Deltas(xs, last), last) == Some(xs)
  {
    hide Varint.Put, Varint.Get, Wrap;
    if xs != [] {
      var d := Wrap(xs[0] - last);
      var rest := Deltas(xs[1..], xs[0]);
      Varint.ReadBack(d, rest);
      WrapInverse(xs[0], last);
      ParseDeltas(xs[1..], xs[0]);
      ParseOne(Varint.Put(d), rest, d, last);
      assert [xs[0]] + xs[1..] == xs;
    }
  }

  /** One varint, then the rest. */
  lemma ParseOne(b: seq<byte>, rest: seq<byte>, d: u32, last: u32)
    requires b != [] && Varint.Get(b + rest) == Varint.Done(d, |b|) && Parse(rest, Wrap(last + d)).Some?
    ensures Parse(b + rest, last) == Some([Wrap(last + d)] + Parse(rest, Wrap(last + d)).value)
  {
    hide Varint.Get, Wrap;
    assert (b + rest)[|b|..] == rest;
  }

  lemma ParseSizedDeltas(xs: seq<u32>)
    requires |xs| <= MaxU32
    ensures ParseSized(SizedDeltas(xs)) == Some(xs)
  {
    Varint.ReadBack(|xs|, Deltas(xs, 0));
    ParseDeltas(xs, 0);
  }

  /** The encoding is injective: two tables with the same bytes are the same table. */
  lemma DeltasInjective(xs: seq<u32>, ys: seq<u32>, last: u32)
    requires Deltas(xs, last) == Deltas(ys, last)
    ensures xs == ys
  {
    ParseDeltas(xs, last);
    ParseDeltas(ys, last);
  }

  /** Appending one offset appends one varint, which is how the index builder grows a list. */
  lemma {:induction false} DeltasAppend(xs: seq<int>, x: int, last: int)
    ensures Deltas(xs + [x], last) == Deltas(xs, last) + Varint.Put(Wrap(x - LastOr(xs, last)))
  {
    hide Varint.Put, Wrap;
    if xs == [] {
      assert (xs + [x])[1..] == [];
      assert Deltas([], x) == [];
    } else {
      assert (xs + [x])[1..] == xs[1..] + [x];
      DeltasAppend(xs[1..], x, xs[0]);
    }
  }

  lemma DeltasNonempty(xs: seq<int>, last: int)
    ensures |Deltas(xs, last)| >= |xs|
  {
  }

  /** toSizedDeltas. */
  method ToSizedDeltas(offsets: seq<u32>) returns (deltas: seq<byte>)
    requires |offsets| <= MaxU32
    ensures deltas == SizedDeltas(offsets)
    ensures ParseSized(deltas) == Some(offsets)
  {
    hide Varint.Put;
    deltas := Varint.Put(|offsets|);
    var last: u32 := 0;
    ghost var head := deltas;
    for i := 0 to |offsets|
      invariant last == LastOr(offsets[..i], 0)
      invariant deltas == head + Deltas(offsets[..i], 0)
    {
      var p := offsets[i];
      var delta := Wrap(p - last);
      DeltasAppend(offsets[..i], p, 0);
      assert offsets[..i + 1] == offsets[..i] + [p];
      last := p;
      deltas := deltas + Varint.Put(delta);
    }
    assert offsets[..|offsets|] == offsets;
    ParseSizedDeltas(offsets);
  }

  /** fromDeltas. */
  method FromDeltas(data: seq<byte>) returns (ps: seq<u32>)
    requires Parse(data, 0).Some?
    ensures Some(ps) == Parse(data, 0)
  {
    ps := [];
    var last: u32 := 0;
    var rest := data;
    ghost var all := Parse(data, 0).value;
    while rest != []
      invariant Parse(rest, last).Some?
      invariant all == ps + Parse(rest, last).value
      decreases |rest|
    {
      var Done(delta, m) := Varint.Get(rest);
      var offset := Wrap(last + delta);
      ghost var tail := Parse(rest[m..], offset).value;
      assert Parse(rest, last) == Some([offset] + tail);
      assert ps + ([offset] + tail) == (ps + [offset]) + tail;
      last := offset;
      rest := rest[m..];
      ps := ps + [offset];
    }
    assert Parse([], last) == Some([]);
    assert ps == all;
  }

  /** fromSizedDeltas. */
  method FromSizedDeltas(data: seq<byte>) returns (ps: seq<u32>)
    requires ParseSized(data).Some?
    ensures Some(ps) == ParseSized(data)
  {
    var Done(sz, m) := Varint.Get(data);
    ps := FromDeltas(data[m..]);
  }

  /** DocumentSection: a half open range of bytes or runes. */
  datatype Section = Section(start: u32, end: u32)

  function Boundaries(secs: seq<Section>): (b: seq<u32>)
    ensures |b| == 2 * |secs|
  {
    if secs == [] then [] else [secs[0].start, secs[0].end] + Boundaries(secs[1..])
  }

  /** The sections two by two; a trailing odd number has no partner. */
  function Pairs(ints: seq<u32>): Option<seq<Section>> {
    if ints == [] then Some([])
    else if |ints| == 1 then None
    else
      match Pairs(ints[2..])
      case None => None
      case Some(secs) => Some([Section(ints[0], ints[1])] + secs)
  }

  lemma {:induction false} PairsBoundaries(secs: seq<Section>)
    ensures Pairs(Boundaries(secs)) == Some(secs)
  {
    if secs != [] {
      assert Boundaries(secs)[2..] == Boundaries(secs[1..]);
      PairsBoundaries(secs[1..]);
      assert [secs[0]] + secs[1..] == secs;
    }
  }

  lemma {:induction false} BoundariesAppend(secs: seq<Section>, s: Section)
    ensures Boundaries(secs + [s]) == Boundaries(secs) + [s.start, s.end]
  {
    if secs == [] {
      assert Boundaries([s][1..]) == [];
      assert secs + [s] == [s];
    } else {
      assert (secs + [s])[1..] == secs[1..] + [s];
      BoundariesAppend(secs[1..], s);
    }
  }

  function DocSectionBytes(secs: seq<Section>): seq<byte> {
    SizedDeltas(Boundaries(secs))
  }

  function ParseDocSections(data: seq<byte>): Option<seq<Section>> {
    match ParseSized(data)
    case None => None
    case Some(ints) => Pairs(ints)
  }

  /** marshalDocSections. */
  method MarshalDocSections(secs: seq<Section>) returns (data: seq<byte>)
    requires 2 * |secs| <= MaxU32
    ensures data == DocSectionBytes(secs)
    ensures ParseDocSections(data) == Some(secs)
  {
    var ints: seq<u32> := [];
    for i := 0 to |secs|
      invariant ints == Boundaries(secs[..i])
    {
      BoundariesAppend(secs[..i], secs[i]);
      assert secs[..i + 1] == secs[..i] + [secs[i]];
      ints := ints + [secs[i].start, secs[i].end];
    }
    assert secs[..|secs|] == secs;
    data := ToSizedDeltas(ints);
    PairsBoundaries(secs);
  }

  /** unmarshalDocSections. */
  method UnmarshalDocSections(data: seq<byte>) returns (secs: seq<Section>)
    requires ParseDocSections(data).Some?
    ensures Some(secs) == ParseDocSections(data)
  {
    var ints := FromSizedDeltas(data);
    secs := [];
    ghost var all := ParseDocSections(data).value;
    while |ints| > 0
      invariant Pairs(ints).Some?
      invariant all == secs + Pairs(ints).value
      decreases |ints|
    {
      var s := Section(ints[0], ints[1]);
      assert secs + ([s] + Pairs(ints[2..]).value) == (secs + [s]) + Pairs(ints[2..]).value;
      secs := secs + [s];
      ints := ints[2..];
    }
    assert secs == all;
  }
}
