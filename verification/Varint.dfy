/**
 * Unsigned LEB128 integers (section 7.6 of DWARF 4), as written by
 * binary.PutUvarint and read by binary.Uvarint.
 */
module Varint {
  import opened Machine

  /** The bytes PutUvarint writes: seven bits a byte, lowest first. */
  function Put(x: nat): (b: seq<byte>)
    ensures |b| >= 1
    ensures x < 128 ==> |b| == 1
  {
    if x < 128 then [x] else [x % 128 + 128] + Put(x / 128)
  }

  /** Seven bits a byte, lowest first. */
  function Sevens(b: seq<byte>): nat {
    if b == [] then 0 else b[0] % 128 + 128 * Sevens(b[1..])
  }

  /** The high bit is set on all bytes but the last, and the last one is not zero unless it is the only one. */
  ghost predicate IsLeb(b: seq<byte>) {
    && b != [] && (forall i :: 0 <= i < |b| ==> (b[i] >= 128 <==> i < |b| - 1))
    && (|b| > 1 ==> b[|b| - 1] != 0)
  }

  /** What is written is the one such sequence with the value of the number. */
  lemma {:induction false} PutIsLeb(x: nat)
    ensures IsLeb(Put(x)) && Sevens(Put(x)) == x
    decreases x
  {
    if x >= 128 {
      PutIsLeb(x / 128);
      LebPrepend(x % 128 + 128, Put(x / 128));
      assert Put(x) == [x % 128 + 128] + Put(x / 128);
    } else {
      assert [x][1..] == [];
    }
  }

  lemma LebPrepend(first: byte, rest: seq<byte>)
    requires first >= 128 && IsLeb(rest) && Sevens(rest) >= 1
    ensures IsLeb([first] + rest) && Sevens([first] + rest) == first - 128 + 128 * Sevens(rest)
  {
    var b := [first] + rest;
    assert b[1..] == rest;
    if |rest| == 1 {
      assert rest[1..] == [];
    }
  }

  lemma {:induction false} LebUnique(b: seq<byte>)
    requires IsLeb(b)
    ensures b == Put(Sevens(b)) && (|b| > 1 ==> Sevens(b) >= 128)
  {
    if |b| == 1 {
      assert b[1..] == [];
    } else {
      LebTail(b);
      LebUnique(b[1..]);
      OneOn(b[0], Sevens(b[1..]), b[1..]);
      assert b == [b[0]] + b[1..];
    }
  }

  lemma LebTail(b: seq<byte>)
    requires IsLeb(b) && |b| > 1
    ensures IsLeb(b[1..]) && b[0] >= 128 && (|b[1..]| == 1 ==> Sevens(b[1..]) >= 1)
  {
    var rest := b[1..];
    assert forall i :: 0 <= i < |rest| ==> rest[i] == b[i + 1];
    if |rest| == 1 {
      assert rest[1..] == [] && rest[0] != 0 && rest[0] < 128;
    }
  }

  lemma OneOn(first: byte, rest: nat, tail: seq<byte>)
    requires first >= 128 && rest >= 1 && tail == Put(rest)
    ensures first % 128 + 128 * rest >= 128 && Put(first % 128 + 128 * rest) == [first] + tail
  {
    var x := first % 128 + 128 * rest;
    assert x / 128 == rest && x % 128 == first - 128;
  }

  /** What Uvarint reports: a value and how many bytes it took, or one of its two failures. */
  datatype Parsed = Done(value: nat, size: nat) | Short | Overflow

  /** Uvarint on the bytes of `b`, the first of which is byte number `i` of the integer. */
  function Get(b: seq<byte>, i: nat := 0): (p: Parsed)
    ensures p.Done? ==> 1 <= p.size <= |b|
  {
    if b == [] then Short
    else if b[0] < 128 then
      if i > 9 || (i == 9 && b[0] > 1) then Overflow else Done(b[0], 1)
    else
      match Get(b[1..], i + 1)
      case Done(v, n) => Done(b[0] - 128 + 128 * v, n + 1)
      case Short => Short
      case Overflow => Overflow
  }

  /** A 32-bit value takes at most five bytes, so the eight byte buffers never overflow. */
  lemma PutSize(x: nat)
    requires x <= MaxU32
    ensures |Put(x)| <= 5
  {
    assert x / 128 < 0x200_0000;
    assert x / 128 / 128 < 0x4_0000;
    assert x / 128 / 128 / 128 < 0x800;
    assert x / 128 / 128 / 128 / 128 < 0x10;
    assert |Put(x / 128 / 128 / 128 / 128)| == 1;
    assert |Put(x / 128 / 128 / 128)| <= 2;
    assert |Put(x / 128 / 128)| <= 3;
  }

  /** Reading after writing: the value, its exact length, and nothing of what follows. */
  lemma {:induction false} GetPut(x: nat, rest: seq<byte>, i: nat := 0)
    requires Fits(x, i)
    ensures Get(Put(x) + rest, i) == Done(x, |Put(x)|)
  {
    var b := Put(x) + rest;
    if x < 128 {
      assert b[0] == x;
    } else {
      assert b[1..] == Put(x / 128) + rest;
      GetPut(x / 128, rest, i + 1);
    }
  }

  /** `x`, starting at byte `i`, stays within the 64 bits Uvarint accepts. */
  predicate Fits(x: nat, i: nat) {
    if x < 128 then i < 9 || (i == 9 && x <= 1) else Fits(x / 128, i + 1)
  }

  lemma FitsU32(x: nat)
    requires x <= MaxU32
    ensures Fits(x, 0)
  {
    assert x / 128 < 0x200_0000;
    assert x / 128 / 128 < 0x4_0000;
    assert x / 128 / 128 / 128 < 0x800;
    assert x / 128 / 128 / 128 / 128 < 0x10;
    assert Fits(x / 128 / 128 / 128 / 128, 4);
    assert Fits(x / 128 / 128 / 128, 3);
    assert Fits(x / 128 / 128, 2);
    assert Fits(x / 128, 1);
  }

  /** The form the codecs use: every 32-bit delta reads back. */
  lemma ReadBack(x: u32, rest: seq<byte>)
    ensures Get(Put(x) + rest) == Done(x, |Put(x)|)
    ensures (Put(x) + rest)[|Put(x)|..] == rest
  {
    FitsU32(x);
    GetPut(x, rest, 0);
  }
}
