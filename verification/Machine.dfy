/** Machine integers, bytes and the small wrappers shared by every module. */
module Machine {

  const MaxU32: int := 0xffff_ffff

  type u32 = x: int | 0 <= x <= 0xffff_ffff

  type byte = x: int | 0 <= x < 256

  /** Reduction modulo 2^32, the effect of Go's uint32 arithmetic. */
  function Wrap(x: int): u32 {
    x % 0x1_0000_0000
  }

  datatype Option<+T> = None | Some(value: T)

  datatype Result<+T> = Ok(value: T) | Err(reason: string)

  /** Strictly increasing sequences: the shape of every posting list. */
  ghost predicate Increasing(s: seq<int>) {
    forall i, j :: 0 <= i < j < |s| ==> s[i] < s[j]
  }

  ghost predicate Nondecreasing(s: seq<int>) {
    forall i, j :: 0 <= i < j < |s| ==> s[i] <= s[j]
  }

  /** The elements of a sequence of numbers. */
  ghost function Elements(s: seq<int>): set<int> {
    set x | x in s
  }

  lemma IncreasingSetUnique(s: seq<int>, t: seq<int>)
    requires Increasing(s) && Increasing(t)
    requires forall x :: x in s <==> x in t
    ensures s == t
  {
    if |s| > 0 { assert s[0] in s; }
    if |t| > 0 { assert t[0] in t; }
    if s == [] {
    } else {
      var s', t' := s[..|s| - 1], t[..|t| - 1];
      var a, b := s[|s| - 1], t[|t| - 1];
      assert a in t && b in s;
      assert a == b;
      assert s == s' + [a] && t == t' + [b];
      forall x ensures x in s' <==> x in t' {
        assert x in s' ==> x in s && x < a;
        assert x in t' ==> x in t && x < b;
      }
      IncreasingSetUnique(s', t');
    }
  }

  /** The parts, one after the other. */
  function JoinAll<T>(parts: seq<seq<T>>): seq<T> {
    if parts == [] then [] else JoinAll(parts[..|parts| - 1]) + parts[|parts| - 1]
  }

  lemma {:induction false} JoinAppend<T>(parts: seq<seq<T>>, more: seq<seq<T>>)
    ensures JoinAll(parts + more) == JoinAll(parts) + JoinAll(more)
  {
    if more == [] {
      assert parts + more == parts;
    } else {
      var n := |more| - 1;
      JoinAppend(parts, more[..n]);
      assert (parts + more)[..|parts + more| - 1] == parts + more[..n];
    }
  }

  lemma SplitAt<T>(s: seq<T>, i: nat)
    requires i < |s|
    ensures s == s[..i] + [s[i]] + s[i + 1..]
  {
  }

  lemma JoinOne<T>(parts: seq<seq<T>>, b: seq<T>)
    ensures JoinAll(parts + [b]) == JoinAll(parts) + b
  {
    assert (parts + [b])[..|parts|] == parts;
  }

  /** The whole is what comes before a part, the part, and what comes after. */
  lemma JoinSplit<T>(parts: seq<seq<T>>, i: nat)
    requires i < |parts|
    ensures JoinAll(parts) == JoinAll(parts[..i]) + parts[i] + JoinAll(parts[i + 1..])
  {
    hide JoinAll;
    SplitAt(parts, i);
    JoinAppend(parts[..i] + [parts[i]], parts[i + 1..]);
    JoinOne(parts[..i], parts[i]);
  }
}
