/**
 * UTF-8 text as Go's utf8.DecodeRune reads it (section 3 of RFC 3629): any
 * byte sequence splits into tokens, a malformed byte being a token of its own
 * that stands for U+FFFD.
 */
module Utf8 {
  import opened Machine

  type Rune = x: int | 0 <= x <= 0x10ffff

  const RuneError: Rune := 0xfffd

  datatype Token = Token(rune: Rune, size: nat)

  predicate Continuation(b: byte) {
    0x80 <= b <= 0xbf
  }

  /** The length a lead byte announces, 0 when no encoding starts with it. */
  function Announced(b: byte): nat {
    if b < 0x80 then 1
    else if b < 0xc2 then 0
    else if b < 0xe0 then 2
    else if b < 0xf0 then 3
    else if b < 0xf5 then 4
    else 0
  }

  /** Second bytes are restricted after some lead bytes: no overlong forms, no surrogates. */
  predicate SecondByte(lead: byte, b: byte) {
    && Continuation(b)
    && (lead == 0xe0 ==> b >= 0xa0)
    && (lead == 0xed ==> b < 0xa0)
    && (lead == 0xf0 ==> b >= 0x90)
    && (lead == 0xf4 ==> b < 0x90)
  }

  /** The bytes of `s`, up to the announced length, are those an encoding may have. */
  predicate Plausible(s: seq<byte>) {
    && s != []
    && Announced(s[0]) >= 1
    && (Announced(s[0]) >= 2 && |s| >= 2 ==> SecondByte(s[0], s[1]))
    && (Announced(s[0]) >= 3 && |s| >= 3 ==> Continuation(s[2]))
    && (Announced(s[0]) >= 4 && |s| >= 4 ==> Continuation(s[3]))
  }

  /** `s` starts with a complete encoded rune. */
  predicate WellEncoded(s: seq<byte>) {
    Plausible(s) && |s| >= Announced(s[0])
  }

  /** `s` is the beginning of an encoded rune whose last bytes are missing. */
  predicate Open(s: seq<byte>) {
    Plausible(s) && |s| < Announced(s[0])
  }

  function RuneValue(s: seq<byte>): Rune
    requires WellEncoded(s)
  {
    var lead: int := s[0];
    match Announced(s[0])
    case 1 => lead
    case 2 => (lead - 0xc0) * 0x40 + Low(s[1])
    case 3 => (lead - 0xe0) * 0x1000 + Low(s[1]) * 0x40 + Low(s[2])
    case _ => (lead - 0xf0) * 0x40000 + Low(s[1]) * 0x1000 + Low(s[2]) * 0x40 + Low(s[3])
  }

  /** The six payload bits of a continuation byte. */
  function Low(b: byte): int {
    b - 0x80
  }

  /** utf8.DecodeRune. */
  function Decode(s: seq<byte>): (t: Token)
    ensures t.size <= |s| && t.size <= 4
    ensures s != [] ==> t.size >= 1
    ensures t.size > 1 ==> WellEncoded(s)
  {
    if s == [] then Token(RuneError, 0)
    else if WellEncoded(s) then Token(RuneValue(s), Announced(s[0]))
    else Token(RuneError, 1)
  }

  function Tokens(s: seq<byte>): seq<Token>
    decreases |s|
  {
    if s == [] then [] else [Decode(s)] + Tokens(s[Decode(s).size..])
  }

  function Runes(s: seq<byte>): (r: seq<Rune>)
    ensures |r| == |Tokens(s)|
    ensures forall i :: 0 <= i < |r| ==> r[i] == Tokens(s)[i].rune
  {
    seq(|Tokens(s)|, i requires 0 <= i < |Tokens(s)| => Tokens(s)[i].rune)
  }

  /** What is left of `s` after `r` tokens. */
  function Suffix(s: seq<byte>, r: nat): (rest: seq<byte>)
    ensures |rest| <= |s|
    decreases r
  {
    if r == 0 || s == [] then s else Suffix(s[Decode(s).size..], r - 1)
  }

  /** The byte offset at which token number `r` of `s` starts. */
  function Offset(s: seq<byte>, r: nat): (off: nat)
    ensures off <= |s|
  {
    |s| - |Suffix(s, r)|
  }

  /** The text never ends inside an encoded rune. */
  predicate Closed(s: seq<byte>)
    decreases |s|
  {
    s == [] || (!Open(s) && Closed(s[Decode(s).size..]))
  }

  predicate ValidUtf8(s: seq<byte>)
    decreases |s|
  {
    s == [] || (WellEncoded(s) && ValidUtf8(s[Decode(s).size..]))
  }

  // ----- one token -----

  /** A complete or hopeless beginning decodes the same whatever follows it. */
  lemma DecodeStable(s: seq<byte>, t: seq<byte>)
    requires s != [] && !Open(s)
    ensures Decode(s + t) == Decode(s)
  {
    assert (s + t)[0] == s[0];
    assert |s| >= 2 ==> (s + t)[1] == s[1];
    assert |s| >= 3 ==> (s + t)[2] == s[2];
    assert |s| >= 4 ==> (s + t)[3] == s[3];
  }

  /** An open beginning can be completed into one rune that swallows all of it. */
  lemma OpenCompletes(s: seq<byte>) returns (t: seq<byte>)
    requires Open(s)
    ensures Decode(s + t).size == |s + t| > |s|
  {
    var second: byte := if s[0] in {0xe0, 0xf0} then 0xbf else 0x80;
    match Announced(s[0]) - |s| {
      case 1 =>
        t := if |s| == 1 then [second] else [0x80];
      case 2 =>
        t := if |s| == 1 then [second, 0x80] else [0x80, 0x80];
      case _ =>
        t := [second, 0x80, 0x80];
    }
    var u := s + t;
    assert |u| == Announced(s[0]);
    assert |s| >= 2 ==> u[1] == s[1];
    assert |s| >= 3 ==> u[2] == s[2];
  }

  /** Equal runes, both properly encoded, have the same bytes. */
  lemma EncodingUnique(s: seq<byte>, t: seq<byte>)
    requires WellEncoded(s) && WellEncoded(t)
    requires Decode(s).rune == Decode(t).rune
    ensures Decode(s).size == Decode(t).size
    ensures s[..Decode(s).size] == t[..Decode(t).size]
  {
    var n := Announced(s[0]);
    assert n == Announced(t[0]);
    assert s[0] == t[0];
    assert n >= 2 ==> s[1] == t[1];
    assert n >= 3 ==> s[2] == t[2];
    assert n >= 4 ==> s[3] == t[3];
  }

  // ----- positions -----

  lemma {:induction false} SuffixIsSlice(s: seq<byte>, r: nat)
    ensures Suffix(s, r) == s[Offset(s, r)..]
    decreases r
  {
    if r > 0 && s != [] {
      SuffixIsSlice(s[Decode(s).size..], r - 1);
    }
  }

  lemma {:induction false} SuffixTokens(s: seq<byte>, r: nat)
    requires r <= |Tokens(s)|
    ensures Tokens(Suffix(s, r)) == Tokens(s)[r..]
    ensures r < |Tokens(s)| ==> Suffix(s, r) != [] && Decode(Suffix(s, r)) == Tokens(s)[r]
    ensures r == |Tokens(s)| ==> Suffix(s, r) == []
    decreases r
  {
    if r > 0 {
      SuffixTokens(s[Decode(s).size..], r - 1);
      assert Tokens(s)[1..][r - 1..] == Tokens(s)[r..];
    } else {
      assert Tokens(s)[0..] == Tokens(s);
    }
  }

  lemma {:induction false} SuffixStep(s: seq<byte>, r: nat)
    requires r < |Tokens(s)|
    ensures Suffix(s, r) != []
    ensures Suffix(s, r + 1) == Suffix(s, r)[Decode(Suffix(s, r)).size..]
    decreases r
  {
    if r > 0 {
      SuffixStep(s[Decode(s).size..], r - 1);
    }
  }

  lemma {:induction false} SuffixSuffix(s: seq<byte>, a: nat, b: nat)
    ensures Suffix(Suffix(s, a), b) == Suffix(s, a + b)
    decreases a
  {
    if a > 0 && s != [] {
      SuffixSuffix(s[Decode(s).size..], a - 1, b);
    }
  }

  lemma OffsetStep(s: seq<byte>, r: nat)
    requires r < |Tokens(s)|
    ensures Offset(s, r + 1) == Offset(s, r) + Tokens(s)[r].size
    ensures 1 <= Tokens(s)[r].size <= 4
    ensures Offset(s, r) < |s|
  {
    SuffixStep(s, r);
    SuffixTokens(s, r);
  }

  lemma {:induction false} OffsetMonotone(s: seq<byte>, a: nat, b: nat)
    requires a <= b <= |Tokens(s)|
    ensures b - a <= Offset(s, b) - Offset(s, a) <= 4 * (b - a)
    decreases b - a
  {
    if a < b {
      OffsetMonotone(s, a, b - 1);
      OffsetStep(s, b - 1);
    }
  }

  lemma OffsetEnds(s: seq<byte>)
    ensures Offset(s, 0) == 0
    ensures Offset(s, |Tokens(s)|) == |s|
    ensures |Tokens(s)| <= |s|
    ensures s != [] ==> |Tokens(s)| >= 1
  {
    SuffixTokens(s, |Tokens(s)|);
    OffsetMonotone(s, 0, |Tokens(s)|);
  }

  lemma OffsetInjective(s: seq<byte>, a: nat, b: nat)
    requires a <= |Tokens(s)| && b <= |Tokens(s)|
    ensures Offset(s, a) == Offset(s, b) <==> a == b
    ensures Offset(s, a) < Offset(s, b) <==> a < b
  {
    if a < b { OffsetMonotone(s, a, b); } else { OffsetMonotone(s, b, a); }
  }

  // ----- concatenation -----

  /** A closed text splits into the same tokens whatever is appended to it. */
  lemma {:induction false} TokensAppend(s: seq<byte>, t: seq<byte>)
    requires Closed(s)
    ensures Tokens(s + t) == Tokens(s) + Tokens(t)
    decreases |s|
  {
    if s == [] {
      assert s + t == t;
    } else {
      var n := Decode(s).size;
      DecodeStable(s, t);
      assert (s + t)[n..] == s[n..] + t;
      TokensAppend(s[n..], t);
    }
  }

  lemma FirstTokenDiffers(s: seq<byte>, t: seq<byte>)
    requires s != [] && Decode(s + t).size > |s|
    ensures Tokens(s + t) != Tokens(s) + Tokens(t)
  {
    var u := s + t;
    assert Tokens(u)[0] == Decode(u);
    assert Tokens(s)[0] == Decode(s);
    assert (Tokens(s) + Tokens(t))[0] == Decode(s);
  }

  lemma TokensCons(s: seq<byte>)
    requires s != []
    ensures Tokens(s) == [Decode(s)] + Tokens(s[Decode(s).size..])
  {
  }

  lemma ConsDiffers<T>(x: T, a: seq<T>, b: seq<T>, c: seq<T>)
    requires a != b + c
    ensures [x] + a != ([x] + b) + c
  {
    assert ([x] + a)[1..] == a;
    assert (([x] + b) + c)[1..] == b + c;
  }

  lemma LaterTokenDiffers(s: seq<byte>, t: seq<byte>, u: seq<byte>, n: nat)
    requires s != [] && u == s + t && Decode(s) == Decode(u) && n == Decode(s).size
    requires Tokens(s[n..] + t) != Tokens(s[n..]) + Tokens(t)
    ensures Tokens(u) != Tokens(s) + Tokens(t)
  {
    hide Tokens, Decode;
    var x, a, b := Decode(s), Tokens(u[n..]), Tokens(s[n..]);
    assert a != b + Tokens(t) by { assert u[n..] == s[n..] + t; }
    ConsDiffers(x, a, b, Tokens(t));
    calc {
      Tokens(u);
      { TokensCons(u); }
      [x] + a;
    !=
      ([x] + b) + Tokens(t);
    == { TokensCons(s); }
      Tokens(s) + Tokens(t);
    }
  }

  /** And only a closed text does: any other one fuses with some continuation. */
  lemma {:induction false} OpenEndFuses(s: seq<byte>) returns (t: seq<byte>)
    requires !Closed(s)
    ensures Tokens(s + t) != Tokens(s) + Tokens(t)
    decreases |s|
  {
    var n := Decode(s).size;
    if Open(s) {
      t := OpenCompletes(s);
      FirstTokenDiffers(s, t);
    } else {
      t := OpenEndFuses(s[n..]);
      DecodeStable(s, t);
      LaterTokenDiffers(s, t, s + t, n);
    }
  }

  /** Closed is exactly independence of what follows. */
  lemma ClosedIffStable(s: seq<byte>)
    ensures Closed(s) <==> forall t: seq<byte> :: Tokens(s + t) == Tokens(s) + Tokens(t)
  {
    if Closed(s) {
      forall t: seq<byte> ensures Tokens(s + t) == Tokens(s) + Tokens(t) { TokensAppend(s, t); }
    } else {
      var t := OpenEndFuses(s);
    }
  }

  lemma {:induction false} ValidIsClosed(s: seq<byte>)
    requires ValidUtf8(s)
    ensures Closed(s)
    decreases |s|
  {
    if s != [] {
      ValidIsClosed(s[Decode(s).size..]);
    }
  }

  lemma {:induction false} ClosedAppend(s: seq<byte>, t: seq<byte>)
    requires Closed(s) && Closed(t)
    ensures Closed(s + t)
    decreases |s|
  {
    if s == [] {
      assert s + t == t;
    } else {
      var n := Decode(s).size;
      DecodeStable(s, t);
      assert (s + t)[n..] == s[n..] + t;
      ClosedAppend(s[n..], t);
      assert !Open(s + t) by {
        assert |s| >= 2 ==> (s + t)[1] == s[1];
        assert |s| >= 3 ==> (s + t)[2] == s[2];
        assert |s| >= 4 ==> (s + t)[3] == s[3];
      }
    }
  }

  lemma {:induction false} ClosedSuffix(s: seq<byte>, r: nat)
    requires Closed(s)
    ensures Closed(Suffix(s, r))
    decreases r
  {
    if r > 0 && s != [] {
      ClosedSuffix(s[Decode(s).size..], r - 1);
    }
  }

  // ----- occurrences -----

  /** The bytes of `p` stand in `s` at byte `b`. */
  predicate OccursAt(p: seq<byte>, s: seq<byte>, b: nat) {
    b + |p| <= |s| && s[b..b + |p|] == p
  }

  lemma InsideIsContinuation(s: seq<byte>)
    ensures forall i :: 1 <= i < Decode(s).size ==> Continuation(s[i])
  {
  }

  /** A byte position that does not hold a continuation byte starts a token. */
  lemma {:induction false} Synchronizes(s: seq<byte>, b: nat) returns (r: nat)
    requires b < |s| && !Continuation(s[b])
    ensures r < |Tokens(s)| && Offset(s, r) == b
    decreases |s|
  {
    hide Decode, Continuation, Tokens, Offset;
    var n := Decode(s).size;
    InsideIsContinuation(s);
    FirstToken(s);
    if b == 0 {
      r := 0;
    } else {
      assert b >= n;
      assert s[n..][b - n] == s[b];
      var r' := Synchronizes(s[n..], b - n);
      r := r' + 1;
      OneFurther(s, r');
    }
  }

  /** Offsets after the first token are those of the rest. */
  lemma OneFurther(s: seq<byte>, r: nat)
    requires s != []
    ensures Offset(s, r + 1) == Decode(s).size + Offset(s[Decode(s).size..], r)
    ensures |Tokens(s)| == 1 + |Tokens(s[Decode(s).size..])|
  {
    hide Decode;
  }

  lemma FirstToken(s: seq<byte>)
    requires s != []
    ensures |Tokens(s)| >= 1 && Offset(s, 0) == 0
  {
    hide Decode;
  }

  /** A text that stands on its own: it starts a token and ends one, wherever it is found. */
  predicate SelfContained(p: seq<byte>) {
    p != [] && !Continuation(p[0]) && Closed(p)
  }

  lemma ValidIsSelfContained(p: seq<byte>)
    requires p != [] && ValidUtf8(p)
    ensures SelfContained(p)
  {
    ValidIsClosed(p);
  }

  /** Wherever a self-contained pattern occurs, its runes occur, starting at a token. */
  lemma OccurrenceTokens(p: seq<byte>, s: seq<byte>, b: nat) returns (r: nat)
    requires SelfContained(p) && OccursAt(p, s, b)
    ensures r + |Tokens(p)| <= |Tokens(s)|
    ensures Offset(s, r) == b
    ensures Tokens(s)[r..r + |Tokens(p)|] == Tokens(p)
  {
    assert s[b] == p[0] by { assert s[b..b + |p|][0] == s[b]; }
    r := Synchronizes(s, b);
    SuffixIsSlice(s, r);
    SuffixTokens(s, r);
    var rest := s[b + |p|..];
    assert s[b..] == p + rest;
    TokensAtSplit(Tokens(s), r, p, rest);
  }

  lemma TokensAtSplit(all: seq<Token>, r: nat, p: seq<byte>, rest: seq<byte>)
    requires Closed(p) && r <= |all| && all[r..] == Tokens(p + rest)
    ensures r + |Tokens(p)| <= |all| && all[r..r + |Tokens(p)|] == Tokens(p)
  {
    TokensAppend(p, rest);
    WindowOfTail(all, r, Tokens(p), Tokens(rest));
  }

  lemma WindowOfTail<T>(all: seq<T>, r: nat, head: seq<T>, rest: seq<T>)
    requires r <= |all| && all[r..] == head + rest
    ensures r + |head| <= |all| && all[r..r + |head|] == head
  {
    assert all[r..][..|head|] == head;
    assert all[r..][..|head|] == all[r..r + |head|];
  }

  // ----- encoding -----

  /** Runes that have an encoding: all but the surrogates. */
  predicate Scalar(r: Rune) {
    r < 0xd800 || r > 0xdfff
  }

  /** utf8.EncodeRune; a surrogate is written as U+FFFD. */
  function Encode(r: Rune): (e: seq<byte>)
    ensures 1 <= |e| <= 4
  {
    if r < 0x80 then [r]
    else if r < 0x800 then [0xc0 + r / 0x40, 0x80 + r % 0x40]
    else if !Scalar(r) then [0xef, 0xbf, 0xbd]
    else if r < 0x10000 then [0xe0 + r / 0x1000, 0x80 + r / 0x40 % 0x40, 0x80 + r % 0x40]
    else [0xf0 + r / 0x40000, 0x80 + r / 0x1000 % 0x40, 0x80 + r / 0x40 % 0x40, 0x80 + r % 0x40]
  }

  lemma SixBitDigits(r: nat)
    ensures r / 0x40 == r / 0x1000 * 0x40 + r / 0x40 % 0x40
    ensures r / 0x1000 == r / 0x40000 * 0x40 + r / 0x1000 % 0x40
    ensures r == r / 0x40 * 0x40 + r % 0x40
  {
  }

  /** Every rune that has an encoding reads back, whatever follows. */
  lemma DecodeEncode(r: Rune, t: seq<byte>)
    requires Scalar(r)
    ensures Decode(Encode(r) + t) == Token(r, |Encode(r)|)
  {
    var e := Encode(r);
    SixBitDigits(r);
    if r >= 0x10000 {
      FourBytes(r);
    }
    assert !Open(e) && Decode(e) == Token(r, |e|);
    DecodeStable(e, t);
  }

  lemma FourBytes(r: Rune)
    requires r >= 0x10000
    ensures WellEncoded(Encode(r)) && RuneValue(Encode(r)) == r
  {
    SixBitDigits(r);
    var e := Encode(r);
    assert r == r / 0x40000 * 0x40000 + r / 0x1000 % 0x40 * 0x1000 + r / 0x40 % 0x40 * 0x40 + r % 0x40;
    assert Announced(e[0]) == 4;
  }

  lemma DecodedIsScalar(s: seq<byte>)
    ensures Scalar(Decode(s).rune)
  {
  }

  /** The runes of `p` stand in `s` from token `r` on. */
  ghost predicate SameRunesAt(p: seq<Token>, s: seq<Token>, r: nat) {
    r + |p| <= |s| && forall i :: 0 <= i < |p| ==> s[r + i].rune == p[i].rune
  }

  /** The runes of the pattern stand for its bytes: the text is valid, or the pattern has no rune that stands for invalid bytes. */
  predicate Legible(p: seq<byte>, s: seq<byte>) {
    ValidUtf8(s) || RuneError !in Runes(p)
  }

  lemma LegibleStart(p: seq<byte>, s: seq<byte>)
    requires p != [] && s != [] && Legible(p, s) && Decode(s).rune == Decode(p).rune
    ensures WellEncoded(s)
  {
    assert Runes(p)[0] == Decode(p).rune;
  }

  lemma LegibleRest(p: seq<byte>, s: seq<byte>)
    requires p != [] && s != [] && Legible(p, s)
    ensures Legible(p[Decode(p).size..], s[Decode(s).size..])
  {
    hide Decode;
    var q := p[Decode(p).size..];
    assert Tokens(p) == [Decode(p)] + Tokens(q);
    assert forall i :: 0 <= i < |Runes(q)| ==> Runes(q)[i] == Runes(p)[i + 1];
  }

  lemma {:induction false} RunesGiveBytes(p: seq<byte>, s: seq<byte>)
    requires ValidUtf8(p) && Legible(p, s) && SameRunesAt(Tokens(p), Tokens(s), 0)
    ensures p <= s
    decreases |p|
  {
    hide Decode, WellEncoded;
    if p != [] {
      assert Tokens(s)[0].rune == Tokens(p)[0].rune == Runes(p)[0];
      LegibleStart(p, s);
      EncodingUnique(s, p);
      var n := Decode(p).size;
      LegibleRest(p, s);
      assert forall i :: 0 <= i < |Tokens(p[n..])| ==> Tokens(p[n..])[i] == Tokens(p)[i + 1];
      assert forall i :: 0 <= i < |Tokens(s[n..])| ==> Tokens(s[n..])[i] == Tokens(s)[i + 1];
      RunesGiveBytes(p[n..], s[n..]);
      assert p == p[..n] + p[n..] && s == s[..n] + s[n..];
    }
  }

  lemma {:induction false} ValidSuffix(s: seq<byte>, r: nat)
    requires ValidUtf8(s)
    ensures ValidUtf8(Suffix(s, r))
    decreases r
  {
    if r > 0 && s != [] {
      ValidSuffix(s[Decode(s).size..], r - 1);
    }
  }

  /** A valid pattern occurs at a rune of a text in which it is legible exactly when its runes do. */
  lemma OccursIffRunes(p: seq<byte>, s: seq<byte>, r: nat)
    requires ValidUtf8(p) && Legible(p, s) && r <= |Tokens(s)|
    ensures OccursAt(p, s, Offset(s, r)) <==> SameRunesAt(Tokens(p), Tokens(s), r)
  {
    if SameRunesAt(Tokens(p), Tokens(s), r) {
      RunesOccur(p, s, r);
    }
    if OccursAt(p, s, Offset(s, r)) {
      OccursAsRunes(p, s, r);
    }
  }

  lemma RunesOccur(p: seq<byte>, s: seq<byte>, r: nat)
    requires ValidUtf8(p) && Legible(p, s) && SameRunesAt(Tokens(p), Tokens(s), r)
    ensures OccursAt(p, s, Offset(s, r))
  {
    hide Tokens;
    SuffixIsSlice(s, r);
    SuffixTokens(s, r);
    if ValidUtf8(s) {
      ValidSuffix(s, r);
    }
    var off, rest := Offset(s, r), Suffix(s, r);
    assert forall i :: 0 <= i < |Tokens(p)| ==> Tokens(rest)[i] == Tokens(s)[r + i];
    RunesGiveBytes(p, rest);
    assert s[off..off + |p|] == rest[..|p|];
  }

  lemma OccursAsRunes(p: seq<byte>, s: seq<byte>, r: nat)
    requires ValidUtf8(p) && r <= |Tokens(s)| && OccursAt(p, s, Offset(s, r))
    ensures SameRunesAt(Tokens(p), Tokens(s), r)
  {
    hide Tokens;
    SuffixIsSlice(s, r);
    SuffixTokens(s, r);
    ValidIsClosed(p);
    var off := Offset(s, r);
    var more := s[off + |p|..];
    assert s[off..] == p + more;
    TokensAtSplit(Tokens(s), r, p, more);
    var window := Tokens(s)[r..r + |Tokens(p)|];
    assert forall i :: 0 <= i < |Tokens(p)| ==> window[i] == Tokens(s)[r + i];
  }

  // ----- which patterns can be found by their runes -----

  /** The runes of `p` stand at byte `b` of `s`, from a token on. */
  ghost predicate RunesStandAt(p: seq<byte>, s: seq<byte>, b: nat) {
    exists r: nat :: r + |Tokens(p)| <= |Tokens(s)| && Offset(s, r) == b && Tokens(s)[r..r + |Tokens(p)|] == Tokens(p)
  }

  /** Equal tokens end at equal bytes. */
  lemma {:induction false} SameTokensSameOffset(s: seq<byte>, p: seq<byte>, n: nat)
    requires n <= |Tokens(s)| && n <= |Tokens(p)| && Tokens(s)[..n] == Tokens(p)[..n]
    ensures Offset(s, n) == Offset(p, n)
  {
    if n > 0 {
      assert Tokens(s)[..n][..n - 1] == Tokens(s)[..n - 1] && Tokens(p)[..n][..n - 1] == Tokens(p)[..n - 1];
      SameTokensSameOffset(s, p, n - 1);
      OffsetStep(s, n - 1);
      OffsetStep(p, n - 1);
      assert Tokens(s)[..n][n - 1] == Tokens(p)[..n][n - 1];
    }
  }

  /** A pattern that starts with the inside of a rune is missed where it continues one. */
  lemma InsideStartMissed(p: seq<byte>) returns (s: seq<byte>, b: nat)
    requires p != [] && Continuation(p[0])
    ensures OccursAt(p, s, b) && !RunesStandAt(p, s, b)
  {
    s, b := [0xc3] + p, 1;
    assert s[1..1 + |p|] == p;
    assert WellEncoded(s) && Decode(s).size == 2;
    assert Offset(s, 0) == 0 && Offset(s, 1) == 2;
    forall r: nat | r + |Tokens(p)| <= |Tokens(s)| ensures Offset(s, r) != 1 {
      if r >= 2 {
        OffsetMonotone(s, 1, r);
      }
    }
  }

  /** Runes that stand at the start split the text. */
  lemma StandingAtStartSplits(p: seq<byte>, t: seq<byte>)
    requires p != [] && RunesStandAt(p, p + t, 0)
    ensures Tokens(p + t) == Tokens(p) + Tokens(t)
  {
    var s, n := p + t, |Tokens(p)|;
    var r: nat :| r + n <= |Tokens(s)| && Offset(s, r) == 0 && Tokens(s)[r..r + n] == Tokens(p);
    OffsetInjective(s, 0, r);
    assert Tokens(s)[..n] == Tokens(p) && Tokens(p)[..n] == Tokens(p);
    SameTokensSameOffset(s, p, n);
    OffsetEnds(p);
    SuffixIsSlice(s, n);
    SuffixTokens(s, n);
    assert s[|p|..] == t;
    assert Tokens(s) == Tokens(s)[..n] + Tokens(s)[n..];
  }

  /** A pattern that ends inside a rune is missed where the rune is completed. */
  lemma OpenEndMissed(p: seq<byte>) returns (s: seq<byte>, b: nat)
    requires p != [] && !Closed(p)
    ensures OccursAt(p, s, b) && !RunesStandAt(p, s, b)
  {
    var t := OpenEndFuses(p);
    s, b := p + t, 0;
    if RunesStandAt(p, s, b) {
      StandingAtStartSplits(p, t);
    }
  }

  /** Every occurrence of a pattern's bytes is an occurrence of its runes exactly if the pattern is self-contained. */
  lemma SelfContainedIffNeverMissed(p: seq<byte>)
    requires p != []
    ensures SelfContained(p) <==> forall s: seq<byte>, b: nat :: OccursAt(p, s, b) ==> RunesStandAt(p, s, b)
  {
    if SelfContained(p) {
      forall s: seq<byte>, b: nat | OccursAt(p, s, b) ensures RunesStandAt(p, s, b) {
        var r := OccurrenceTokens(p, s, b);
      }
    } else if Continuation(p[0]) {
      var s, b := InsideStartMissed(p);
    } else {
      var s, b := OpenEndMissed(p);
    }
  }

  // ----- which patterns mean their bytes -----

  /** The text with every replacement rune turned into an invalid byte. */
  ghost function Blur(p: seq<byte>): seq<byte> {
    if p == [] then []
    else (if Decode(p).rune == RuneError then [0xff] else p[..Decode(p).size]) + Blur(p[Decode(p).size..])
  }

  /** The blurred text has the same runes, and is shorter if anything was blurred. */
  lemma {:induction false} BlurKeepsRunes(p: seq<byte>)
    requires ValidUtf8(p)
    ensures |Tokens(Blur(p))| == |Tokens(p)| && forall i :: 0 <= i < |Tokens(p)| ==> Tokens(Blur(p))[i].rune == Tokens(p)[i].rune
    ensures |Blur(p)| <= |p| && (RuneError in Runes(p) ==> |Blur(p)| < |p|)
    decreases |p|
  {
    if p != [] {
      var n := Decode(p).size;
      var q := p[n..];
      BlurKeepsRunes(q);
      BlurFirst(p, Blur(q));
      assert Tokens(p) == [Decode(p)] + Tokens(q);
      var b := Blur(p);
      assert Tokens(b) == [Decode(b)] + Tokens(Blur(q));
      if RuneError in Runes(p) && Decode(p).rune != RuneError {
        var i :| 0 <= i < |Runes(p)| && Runes(p)[i] == RuneError;
        assert Runes(q)[i - 1] == RuneError;
      }
    }
  }

  lemma BlurFirst(p: seq<byte>, t: seq<byte>)
    requires p != [] && WellEncoded(p)
    ensures var b := (if Decode(p).rune == RuneError then [0xff] else p[..Decode(p).size]) + t;
            && Decode(b).rune == Decode(p).rune && b[Decode(b).size..] == t
            && (Decode(p).rune == RuneError ==> Decode(p).size == 3)
  {
    var n := Decode(p).size;
    if Decode(p).rune == RuneError {
      assert ([0xff] + t)[1..] == t;
    } else {
      var head := p[..n];
      assert n >= 2 ==> head[1] == p[1];
      assert n >= 3 ==> head[2] == p[2];
      assert n >= 4 ==> head[3] == p[3];
      assert WellEncoded(head) && Decode(head) == Decode(p);
      DecodeStable(head, t);
      assert (head + t)[n..] == t;
    }
  }

  /** Where its runes stand a valid pattern's bytes stand, in all texts, exactly if it has no replacement rune. */
  lemma NoReplacementIffExact(p: seq<byte>)
    requires ValidUtf8(p)
    ensures RuneError !in Runes(p) <==>
            forall s: seq<byte>, r: nat :: SameRunesAt(Tokens(p), Tokens(s), r) ==> OccursAt(p, s, Offset(s, r))
  {
    if RuneError !in Runes(p) {
      forall s: seq<byte>, r: nat | SameRunesAt(Tokens(p), Tokens(s), r) ensures OccursAt(p, s, Offset(s, r)) {
        RunesOccur(p, s, r);
      }
    } else {
      BlurKeepsRunes(p);
      assert SameRunesAt(Tokens(p), Tokens(Blur(p)), 0) && !OccursAt(p, Blur(p), Offset(Blur(p), 0));
    }
  }

  // ----- encoding a text -----

  /** string(r.Rune): the runes, encoded. */
  function EncodeAll(rs: seq<Rune>): seq<byte> {
    if rs == [] then [] else Encode(rs[0]) + EncodeAll(rs[1..])
  }

  /** All runes have an encoding. */
  ghost predicate Scalars(rs: seq<Rune>) {
    forall i :: 0 <= i < |rs| ==> Scalar(rs[i])
  }

  /** Runes that were decoded have one. */
  lemma RunesScalar(s: seq<byte>)
    ensures Scalars(Runes(s))
  {
    forall i | 0 <= i < |Runes(s)| ensures Scalar(Runes(s)[i]) {
      SuffixTokens(s, i);
      DecodedIsScalar(Suffix(s, i));
    }
  }

  lemma {:induction false} RunesOfEncodeAll(rs: seq<Rune>)
    requires Scalars(rs)
    ensures Runes(EncodeAll(rs)) == rs
  {
    hide Encode, Decode;
    if rs == [] {
      assert Tokens([]) == [];
    } else {
      var s, tail := EncodeAll(rs), EncodeAll(rs[1..]);
      DecodeEncode(rs[0], tail);
      RunesOfEncodeAll(rs[1..]);
      assert s[|Encode(rs[0])|..] == tail;
      assert Tokens(s) == [Decode(s)] + Tokens(tail);
      assert forall i :: 1 <= i < |Runes(s)| ==> Runes(s)[i] == Runes(tail)[i - 1];
    }
  }

  /** What is encoded is valid. */
  lemma {:induction false} EncodeAllValid(rs: seq<Rune>)
    requires Scalars(rs)
    ensures ValidUtf8(EncodeAll(rs))
  {
    if rs != [] {
      var e, tail := Encode(rs[0]), EncodeAll(rs[1..]);
      DecodeEncode(rs[0], tail);
      WellEncodedRune(rs[0], tail);
      EncodeAllValid(rs[1..]);
      assert (e + tail)[|e|..] == tail;
    }
  }

  lemma WellEncodedRune(r: Rune, t: seq<byte>)
    requires Scalar(r)
    ensures WellEncoded(Encode(r) + t)
  {
    DecodeEncode(r, t);
    var s := Encode(r) + t;
    if r < 0x80 {
      assert s[0] == r;
    } else {
      assert |Encode(r)| >= 2 && Decode(s).size >= 2;
    }
  }
}
