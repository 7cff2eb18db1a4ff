/** sort.Sort: in order of a key, and nothing said about elements with equal keys. */
module Sorting {

  ghost predicate SortedBy<T>(s: seq<T>, key: T -> int) {
    forall i, j :: 0 <= i < j < |s| ==> key(s[i]) <= key(s[j])
  }

  method SortBy<T>(xs: seq<T>, key: T -> int) returns (r: seq<T>)
    ensures SortedBy(r, key) && multiset(r) == multiset(xs)
  {
    hide SortedBy;
    r := [];
    NothingSorted(key);
    for n := 0 to |xs|
      invariant SortedBy(r, key) && multiset(r) == multiset(xs[..n])
    {
      PrefixBag(xs, n);
      r := Insert(r, xs[n], key);
    }
    assert xs[..|xs|] == xs;
  }

  method Insert<T>(s: seq<T>, x: T, key: T -> int) returns (r: seq<T>)
    requires SortedBy(s, key)
    ensures SortedBy(r, key) && multiset(r) == multiset(s) + multiset{x}
  {
    hide SortedBy;
    var i := |s|;
    while i > 0 && key(x) < key(s[i - 1])
      invariant 0 <= i <= |s| && forall j :: i <= j < |s| ==> key(x) < key(s[j])
    {
      i := i - 1;
    }
    InsertedInOrder(s, i, x, key);
    InsertedBag(s, i, x);
    r := s[..i] + [x] + s[i..];
  }

  lemma NothingSorted<T>(key: T -> int)
    ensures SortedBy([], key)
  {
  }

  lemma InsertedInOrder<T>(r: seq<T>, i: nat, x: T, key: T -> int)
    requires i <= |r| && SortedBy(r, key) && (i > 0 ==> key(r[i - 1]) <= key(x))
    requires forall j :: i <= j < |r| ==> key(x) < key(r[j])
    ensures SortedBy(r[..i] + [x] + r[i..], key)
  {
    var t := r[..i] + [x] + r[i..];
    assert forall j :: 0 <= j < |t| ==> t[j] == if j < i then r[j] else if j == i then x else r[j - 1];
    forall j, k | 0 <= j < k < |t| ensures key(t[j]) <= key(t[k]) {
      if k == i {
        assert j < i - 1 ==> key(r[j]) <= key(r[i - 1]);
      }
    }
  }

  lemma InsertedBag<T>(r: seq<T>, i: nat, x: T)
    requires i <= |r|
    ensures multiset(r[..i] + [x] + r[i..]) == multiset(r) + multiset{x}
  {
    assert r == r[..i] + r[i..];
    assert multiset(r) == multiset(r[..i]) + multiset(r[i..]);
  }

  lemma PrefixBag<T>(xs: seq<T>, n: nat)
    requires n < |xs|
    ensures multiset(xs[..n + 1]) == multiset(xs[..n]) + multiset{xs[n]}
  {
    assert xs[..n + 1] == xs[..n] + [xs[n]];
  }
}
