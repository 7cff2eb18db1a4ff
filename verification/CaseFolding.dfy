/**
 * Case variants of a trigram (bits.go). `fold` stands for unicode.SimpleFold:
 * applied again and again it walks the runes equal up to case and comes back.
 */
module CaseFolding {
  import opened Machine
  import opened Utf8
  import opened Ngrams

  function Folded(fold: Rune -> Rune, x: Rune, n: nat): Rune {
    if n == 0 then x else fold(Folded(fold, x, n - 1))
  }

  /** `k` is the first number of steps that leads from `x` back to `x`. */
  ghost predicate Period(fold: Rune -> Rune, x: Rune, k: nat) {
    && k >= 1 && Folded(fold, x, k) == x
    && forall j :: 0 < j < k ==> Folded(fold, x, j) != x
  }

  ghost predicate ComesBack(fold: Rune -> Rune, x: Rune) {
    exists k :: Period(fold, x, k)
  }

  /** Every rune comes back to itself. */
  ghost predicate Cycles(fold: Rune -> Rune) {
    forall x: Rune :: ComesBack(fold, x)
  }

  /** `y` is a case variant of `x`. */
  ghost predicate SameFold(fold: Rune -> Rune, x: Rune, y: Rune) {
    exists n :: Folded(fold, x, n) == y
  }

  lemma {:induction false} FoldedSum(fold: Rune -> Rune, x: Rune, a: nat, b: nat)
    ensures Folded(fold, Folded(fold, x, a), b) == Folded(fold, x, a + b)
    decreases b
  {
    if b > 0 {
      FoldedSum(fold, x, a, b - 1);
    }
  }

  /** Within one period all the variants differ. */
  lemma FoldedDistinct(fold: Rune -> Rune, x: Rune, k: nat, i: nat, j: nat)
    requires Period(fold, x, k) && i < j < k
    ensures Folded(fold, x, i) != Folded(fold, x, j)
  {
    FoldedSum(fold, x, i, k - j);
    FoldedSum(fold, x, j, k - j);
    assert Folded(fold, x, i + (k - j)) != x;
  }

  /** One period reaches every variant. */
  lemma {:induction false} OnePeriod(fold: Rune -> Rune, x: Rune, k: nat, n: nat) returns (j: nat)
    requires Period(fold, x, k)
    ensures j < k && Folded(fold, x, j) == Folded(fold, x, n)
    decreases n
  {
    if n < k {
      j := n;
    } else {
      j := OnePeriod(fold, x, k, n - k);
      FoldedSum(fold, x, k, n - k);
    }
  }

  // ----- the odometer -----

  /** How many steps each of the three runes has been folded. */
  datatype Dial = Dial(d0: nat, d1: nat, d2: nat)

  predicate Below(a: Dial, k: Dial) {
    a.d0 < k.d0 && a.d1 < k.d1 && a.d2 < k.d2
  }

  /** The order in which the odometer runs, the first rune fastest. */
  predicate Before(a: Dial, b: Dial) {
    a.d2 < b.d2 || (a.d2 == b.d2 && (a.d1 < b.d1 || (a.d1 == b.d1 && a.d0 < b.d0)))
  }

  const Zero: Dial := Dial(0, 0, 0)

  function Successor(a: Dial, k: Dial): Dial {
    if a.d0 + 1 < k.d0 then Dial(a.d0 + 1, a.d1, a.d2)
    else if a.d1 + 1 < k.d1 then Dial(0, a.d1 + 1, a.d2)
    else if a.d2 + 1 < k.d2 then Dial(0, 0, a.d2 + 1)
    else Zero
  }

  ghost function Runes3(fold: Rune -> Rune, x: (Rune, Rune, Rune), a: Dial): (Rune, Rune, Rune) {
    (Folded(fold, x.0, a.d0), Folded(fold, x.1, a.d1), Folded(fold, x.2, a.d2))
  }

  ghost predicate Periods(fold: Rune -> Rune, x: (Rune, Rune, Rune), k: Dial) {
    Period(fold, x.0, k.d0) && Period(fold, x.1, k.d1) && Period(fold, x.2, k.d2)
  }

  /** The dials seen so far: in order, all of them valid, none left out up to `now` except zero. */
  ghost predicate Ran(seen: seq<Dial>, now: Dial, k: Dial) {
    && Below(now, k)
    && (forall i :: 0 <= i < |seen| ==> Below(seen[i], k) && seen[i] != Zero)
    && (forall i, j :: 0 <= i < j < |seen| ==> Before(seen[i], seen[j]))
    && (forall i :: 0 <= i < |seen| ==> seen[i] == now || Before(seen[i], now))
    && (forall a :: Below(a, k) && a != Zero && (a == now || Before(a, now)) ==> a in seen)
  }

  lemma RanOn(seen: seq<Dial>, now: Dial, k: Dial)
    requires Ran(seen, now, k) && Successor(now, k) != Zero
    ensures Ran(seen + [Successor(now, k)], Successor(now, k), k)
  {
    var next := Successor(now, k);
    forall a | Below(a, k) && a != Zero && (a == next || Before(a, next)) ensures a in seen + [next] {
      if a != next {
        assert a == now || Before(a, now);
      }
    }
  }

  lemma RanRound(seen: seq<Dial>, now: Dial, k: Dial)
    requires Ran(seen, now, k) && Successor(now, k) == Zero
    ensures forall a :: Below(a, k) <==> a in seen + [Zero]
    ensures forall i, j :: 0 <= i < j < |seen + [Zero]| ==> (seen + [Zero])[i] != (seen + [Zero])[j]
  {
    forall a | Below(a, k) ensures a in seen + [Zero] {
      assert a == now || Before(a, now);
    }
    forall i, j | 0 <= i < j < |seen + [Zero]| ensures (seen + [Zero])[i] != (seen + [Zero])[j] {
      if j < |seen| {
        assert Before(seen[i], seen[j]);
      }
    }
  }

  /** The inner loop at bits.go:29: fold the first rune; carry on only when it is back at its start. */
  method Turn(fold: Rune -> Rune, x: (Rune, Rune, Rune), cur: seq<Rune>, ghost now: Dial, ghost k: Dial)
    returns (cur': seq<Rune>)
    requires Periods(fold, x, k) && Below(now, k) && |cur| == 3
    requires (cur[0], cur[1], cur[2]) == Runes3(fold, x, now)
    ensures |cur'| == 3 && (cur'[0], cur'[1], cur'[2]) == Runes3(fold, x, Successor(now, k))
  {
    cur' := cur;
    var asRunes := [x.0, x.1, x.2];
    ghost var ks, ds := [k.d0, k.d1, k.d2], [now.d0, now.d1, now.d2];
    for i := 0 to 3
      invariant |cur'| == 3
      invariant forall j :: i <= j < 3 ==> cur'[j] == cur[j]
      invariant forall j :: 0 <= j < i ==> cur'[j] == asRunes[j] && ds[j] + 1 == ks[j]
    {
      var next := fold(cur'[i]);
      assert next == Folded(fold, asRunes[i], ds[i] + 1);
      cur' := cur'[i := next];
      if next != asRunes[i] {
        break;
      }
    }
  }

  /** `v` is the trigram of three runes that are case variants of the runes of `x`. */
  ghost predicate IsVariant(fold: Rune -> Rune, x: (Rune, Rune, Rune), v: Ngram) {
    exists a: Rune, b: Rune, c: Rune ::
      SameFold(fold, x.0, a) && SameFold(fold, x.1, b) && SameFold(fold, x.2, c) && v == Pack(a, b, c)
  }

  ghost function PackDial(fold: Rune -> Rune, x: (Rune, Rune, Rune), a: Dial): Ngram {
    var r := Runes3(fold, x, a);
    Pack(r.0, r.1, r.2)
  }

  lemma PackDialInjective(fold: Rune -> Rune, x: (Rune, Rune, Rune), k: Dial, a: Dial, b: Dial)
    requires Periods(fold, x, k) && Below(a, k) && Below(b, k) && a != b
    ensures PackDial(fold, x, a) != PackDial(fold, x, b)
  {
    var r, s := Runes3(fold, x, a), Runes3(fold, x, b);
    UnpackPack(r.0, r.1, r.2);
    UnpackPack(s.0, s.1, s.2);
    assert r != s by {
      if a.d0 != b.d0 {
        if a.d0 < b.d0 { FoldedDistinct(fold, x.0, k.d0, a.d0, b.d0); } else { FoldedDistinct(fold, x.0, k.d0, b.d0, a.d0); }
      } else if a.d1 != b.d1 {
        if a.d1 < b.d1 { FoldedDistinct(fold, x.1, k.d1, a.d1, b.d1); } else { FoldedDistinct(fold, x.1, k.d1, b.d1, a.d1); }
      } else {
        if a.d2 < b.d2 { FoldedDistinct(fold, x.2, k.d2, a.d2, b.d2); } else { FoldedDistinct(fold, x.2, k.d2, b.d2, a.d2); }
      }
    }
  }

  /** The dials below the periods give exactly the variants. */
  lemma VariantIsDial(fold: Rune -> Rune, x: (Rune, Rune, Rune), k: Dial, v: Ngram)
    requires Periods(fold, x, k)
    ensures IsVariant(fold, x, v) <==> exists a :: Below(a, k) && v == PackDial(fold, x, a)
  {
    if IsVariant(fold, x, v) {
      var a: Rune, b: Rune, c: Rune :|
        SameFold(fold, x.0, a) && SameFold(fold, x.1, b) && SameFold(fold, x.2, c) && v == Pack(a, b, c);
      var n0 :| Folded(fold, x.0, n0) == a;
      var n1 :| Folded(fold, x.1, n1) == b;
      var n2 :| Folded(fold, x.2, n2) == c;
      var j0 := OnePeriod(fold, x.0, k.d0, n0);
      var j1 := OnePeriod(fold, x.1, k.d1, n1);
      var j2 := OnePeriod(fold, x.2, k.d2, n2);
      assert Below(Dial(j0, j1, j2), k) && v == PackDial(fold, x, Dial(j0, j1, j2));
    }
    if d :| Below(d, k) && v == PackDial(fold, x, d) {
      var r := Runes3(fold, x, d);
      assert SameFold(fold, x.0, r.0) && SameFold(fold, x.1, r.1) && SameFold(fold, x.2, r.2);
    }
  }

  /** generateCaseNgrams: every case variant of the trigram, each exactly once. */
  method GenerateCaseNgrams(fold: Rune -> Rune, x: (Rune, Rune, Rune)) returns (variants: seq<Ngram>)
    requires Cycles(fold)
    ensures forall v: Ngram :: v in variants <==> IsVariant(fold, x, v)
    ensures forall i, j :: 0 <= i < j < |variants| ==> variants[i] != variants[j]
  {
    hide Pack, Folded, Period;
    ghost var k0: nat :| Period(fold, x.0, k0) by { assert ComesBack(fold, x.0); }
    ghost var k1: nat :| Period(fold, x.1, k1) by { assert ComesBack(fold, x.1); }
    ghost var k2: nat :| Period(fold, x.2, k2) by { assert ComesBack(fold, x.2); }
    ghost var k := Dial(k0, k1, k2);
    variants := [];
    var cur := [x.0, x.1, x.2];
    ghost var now, seen: seq<Dial> := Zero, [];
    StartDial(fold, x, k);
    while true
      invariant Ran(seen, now, k)
      invariant |cur| == 3 && (cur[0], cur[1], cur[2]) == Runes3(fold, x, now)
      invariant |variants| == |seen| && forall i :: 0 <= i < |seen| ==> variants[i] == PackDial(fold, x, seen[i])
      decreases k.d2 - now.d2, k.d1 - now.d1, k.d0 - now.d0
    {
      cur := Turn(fold, x, cur, now, k);
      variants := variants + [Pack(cur[0], cur[1], cur[2])];
      ghost var next := Successor(now, k);
      SuccessorBack(fold, x, k, now, next);
      if (cur[0], cur[1], cur[2]) == x {
        RanRound(seen, now, k);
        AllVariants(fold, x, k, seen + [Zero], variants);
        break;
      }
      RanOn(seen, now, k);
      seen, now := seen + [next], next;
    }
  }

  lemma StartDial(fold: Rune -> Rune, x: (Rune, Rune, Rune), k: Dial)
    requires Periods(fold, x, k)
    ensures Ran([], Zero, k) && Runes3(fold, x, Zero) == x
  {
  }

  /** The runes are back at the start exactly when the odometer is. */
  lemma SuccessorBack(fold: Rune -> Rune, x: (Rune, Rune, Rune), k: Dial, now: Dial, next: Dial)
    requires Periods(fold, x, k) && Below(now, k) && next == Successor(now, k)
    ensures Runes3(fold, x, next) == x <==> next == Zero
  {
  }

  lemma AllVariants(fold: Rune -> Rune, x: (Rune, Rune, Rune), k: Dial, seen: seq<Dial>, variants: seq<Ngram>)
    requires Periods(fold, x, k)
    requires forall a :: Below(a, k) <==> a in seen
    requires forall i, j :: 0 <= i < j < |seen| ==> seen[i] != seen[j]
    requires |variants| == |seen| && forall i :: 0 <= i < |seen| ==> variants[i] == PackDial(fold, x, seen[i])
    ensures forall v: Ngram :: v in variants <==> IsVariant(fold, x, v)
    ensures forall i, j :: 0 <= i < j < |variants| ==> variants[i] != variants[j]
  {
    forall v: Ngram ensures v in variants <==> IsVariant(fold, x, v) {
      VariantIsDial(fold, x, k, v);
      if v in variants {
        var i :| 0 <= i < |variants| && variants[i] == v;
        assert seen[i] in seen;
      }
      if a :| Below(a, k) && v == PackDial(fold, x, a) {
        var i :| 0 <= i < |seen| && seen[i] == a;
        assert variants[i] == v;
      }
    }
    forall i, j | 0 <= i < j < |variants| ensures variants[i] != variants[j] {
      assert seen[i] in seen && seen[j] in seen;
      PackDialInjective(fold, x, k, seen[i], seen[j]);
    }
  }
}
