/** The match tree (matchtree.go): skipping documents, and evaluating one at rising cost. */
module MatchTree {
  import opened Machine
  import opened MatchAtoms

  /** A node carries an identity, which is what the table of known values is keyed by. */
  datatype Tree =
    | Leaf(id: nat, atom: Atom)
    | And(id: nat, children: seq<Tree>)
    | Or(id: nat, children: seq<Tree>)
    | Not(id: nat, child: Tree)
    | NoVisit(id: nat, child: Tree)
  {
    ghost function Objects(): set<object> {
      match this
      case Leaf(_, a) => a.Objects()
      case And(_, cs) => set i, o | 0 <= i < |cs| && o in cs[i].Objects() :: o
      case Or(_, cs) => set i, o | 0 <= i < |cs| && o in cs[i].Objects() :: o
      case Not(_, c) => c.Objects()
      case NoVisit(_, c) => c.Objects()
    }

    /** All leaves are ready for the documents after `cursor`. */
    ghost predicate Ready(cursor: int)
      reads Objects()
    {
      match this
      case Leaf(_, a) => a.Ready(cursor)
      case And(_, cs) => forall i :: 0 <= i < |cs| ==> cs[i].Ready(cursor)
      case Or(_, cs) => forall i :: 0 <= i < |cs| ==> cs[i].Ready(cursor)
      case Not(_, c) => c.Ready(cursor)
      case NoVisit(_, c) => c.Ready(cursor)
    }

    /** No leaf is shared, and every leaf was made for a shard of `n` documents. */
    ghost predicate Proper(n: nat) {
      match this
      case Leaf(_, a) => a.Counts(n)
      case And(_, cs) => Disjoint(cs) && forall i :: 0 <= i < |cs| ==> cs[i].Proper(n)
      case Or(_, cs) => Disjoint(cs) && forall i :: 0 <= i < |cs| ==> cs[i].Proper(n)
      case Not(_, c) => c.Proper(n)
      case NoVisit(_, c) => c.Proper(n)
    }

    /** The plain boolean meaning on document `d`. */
    ghost predicate Sat(d: nat)
      decreases this, 1
    {
      match this
      case Leaf(_, a) => a.Sat(d)
      case And(_, cs) => AllSat(cs, d)
      case Or(_, cs) => AnySat(cs, d)
      case Not(_, c) => !c.Sat(d)
      case NoVisit(_, c) => c.Sat(d)
    }

    /** How far a jump goes: the farthest of the children's for and, the nearest for or, nowhere for not. */
    ghost predicate Jumps(cursor: int, doc: u32)
      decreases this, 1
    {
      match this
      case Leaf(_, a) => a.Jumps(cursor, doc)
      case And(_, cs) => exists ds :: JumpsOf(cs, cursor, ds) && (forall i :: 0 <= i < |ds| ==> ds[i] <= doc) && (doc == 0 || doc in ds)
      case Or(_, cs) => exists ds :: JumpsOf(cs, cursor, ds) && (forall i :: 0 <= i < |ds| ==> doc <= ds[i]) && (doc == MaxU32 || doc in ds)
      case Not(_, _) => doc == 0
      case NoVisit(_, c) => c.Jumps(cursor, doc)
    }

    /** nextDoc: nothing that matches is passed over. */
    method NextDoc(ghost cursor: int, ghost n: nat) returns (doc: u32)
      requires Ready(cursor) && Proper(n) && cursor < n
      modifies Objects()
      ensures Ready(cursor)
      ensures forall d :: cursor < d < doc && 0 <= d < n ==> !Sat(d)
      ensures Jumps(cursor, doc)
      decreases this, 1
    {
      hide Atom.Ready, Atom.Sat, Atom.Jumps, JumpsOf;
      match this
      case Leaf(_, a) => doc := a.NextDoc(cursor, n);
      case Not(_, c) => doc := 0;
      case NoVisit(_, c) => doc := c.NextDoc(cursor, n);
      case And(_, cs) => doc := NextDocOfAll(cs, cursor, n);
      case Or(_, cs) => doc := NextDocOfAny(cs, cursor, n);
    }

    method Prepare(doc: u32, ghost cursor: int, ghost n: nat)
      requires Ready(cursor) && Proper(n) && cursor < doc < n
      modifies Objects()
      ensures Ready(doc)
      decreases this, 1
    {
      hide Atom.Ready, Atom.Sat;
      match this
      case Leaf(_, a) => a.Prepare(doc, cursor, n);
      case Not(_, c) => c.Prepare(doc, cursor, n);
      case NoVisit(_, c) => c.Prepare(doc, cursor, n);
      case And(_, cs) => PrepareAll(cs, doc, cursor, n);
      case Or(_, cs) => PrepareAll(cs, doc, cursor, n);
    }

    /** The identities of the node and of all nodes below it. */
    ghost function Ids(): set<nat>
      decreases this, 1
    {
      match this
      case Leaf(_, _) => {id}
      case And(_, cs) => {id} + IdsOf(cs)
      case Or(_, cs) => {id} + IdsOf(cs)
      case Not(_, c) => {id} + c.Ids()
      case NoVisit(_, c) => {id} + c.Ids()
    }

    /** No two nodes have the same identity. */
    ghost predicate Distinct()
      decreases this, 1
    {
      match this
      case Leaf(_, _) => true
      case And(_, cs) => id !in IdsOf(cs) && DistinctAll(cs)
      case Or(_, cs) => id !in IdsOf(cs) && DistinctAll(cs)
      case Not(_, c) => id !in c.Ids() && c.Distinct()
      case NoVisit(_, c) => id !in c.Ids() && c.Distinct()
    }

    /** Enough is known about the node to take its matches: a value for every child, or the matches of a leaf. */
    ghost predicate Decided(known: map<nat, bool>, d: nat)
      reads Objects()
    {
      match this
      case Leaf(_, a) => a.Settled(d)
      case And(_, cs) => forall i :: 0 <= i < |cs| ==> cs[i].id in known
      case Or(_, cs) => forall i :: 0 <= i < |cs| ==> cs[i].id in known
      case _ => true
    }

    /** The table of known values is right about the node and all below it, and what it knows to match is decided. */
    ghost predicate Noted(known: map<nat, bool>, d: nat)
      reads Objects()
    {
      && (id in known ==> known[id] == Sat(d) && (Sat(d) ==> Decided(known, d)))
      && match this
         case Leaf(_, _) => true
         case And(_, cs) => forall i :: 0 <= i < |cs| ==> cs[i].Noted(known, d)
         case Or(_, cs) => forall i :: 0 <= i < |cs| ==> cs[i].Noted(known, d)
         case Not(_, c) => c.Noted(known, d)
         case NoVisit(_, c) => c.id !in known && c.Noted(known, d)
    }

    /** What is known of other nodes does not matter. */
    lemma {:induction false} NotedElsewhere(known: map<nat, bool>, known': map<nat, bool>, d: nat)
      requires Noted(known, d) && SameOn(known, known', Ids())
      ensures Noted(known', d)
    {
      hide Sat, Atom.Settled;
      match this
      case Leaf(_, _) =>
      case And(_, cs) =>
        forall i | 0 <= i < |cs| ensures cs[i].Noted(known', d) && cs[i].id in IdsOf(cs) {
          OwnIds(cs, i);
          cs[i].NotedElsewhere(known, known', d);
        }
      case Or(_, cs) =>
        forall i | 0 <= i < |cs| ensures cs[i].Noted(known', d) && cs[i].id in IdsOf(cs) {
          OwnIds(cs, i);
          cs[i].NotedElsewhere(known, known', d);
        }
      case Not(_, c) => c.NotedElsewhere(known, known', d);
      case NoVisit(_, c) => c.NotedElsewhere(known, known', d);
    }

    lemma {:induction false} NothingNoted(d: nat)
      ensures Noted(map[], d)
    {
      match this
      case Leaf(_, _) =>
      case And(_, cs) => forall i | 0 <= i < |cs| ensures cs[i].Noted(map[], d) { cs[i].NothingNoted(d); }
      case Or(_, cs) => forall i | 0 <= i < |cs| ensures cs[i].Noted(map[], d) { cs[i].NothingNoted(d); }
      case Not(_, c) => c.NothingNoted(d);
      case NoVisit(_, c) => c.NothingNoted(d);
    }

    /** matches: three-valued; right whenever sure, and sure at the highest cost. */
    method Matches(doc: u32, cost: nat, known: map<nat, bool>, ghost n: nat)
      returns (v: bool, sure: bool, known': map<nat, bool>)
      requires Ready(doc) && Proper(n) && doc < n && Distinct()
      requires id !in known && Noted(known, doc)
      modifies Objects()
      ensures Ready(doc)
      ensures id !in known' && Noted(known', doc) && Extends(known, known', Ids())
      ensures sure ==> v == Sat(doc)
      ensures sure && v ==> Decided(known', doc)
      ensures cost >= CostMax ==> sure
      decreases this, 1
    {
      hide Atom.Ready, Atom.Sat, Atom.Settled, IdsOf, DistinctAll;
      match this
      case Leaf(_, a) =>
        v, sure := a.Matches(doc, cost, n);
        known' := known;
      case Not(_, c) =>
        v, sure, known' := Evaluate(c, doc, cost, known, n);
        v := !v;
      case NoVisit(_, c) =>
        v, sure, known' := c.Matches(doc, cost, known, n);
      case And(_, cs) =>
        v, sure, known' := AllMatch(cs, doc, cost, known, n);
      case Or(_, cs) =>
        v, sure, known' := AnyMatches(cs, doc, cost, known, n);
    }
  }

  /** The tables agree on these identities. */
  ghost predicate SameOn(known: map<nat, bool>, known': map<nat, bool>, ids: set<nat>) {
    forall i :: i in ids ==> (i in known <==> i in known') && (i in known ==> known[i] == known'[i])
  }

  /** The table has grown, at most by values for these identities. */
  ghost predicate Extends(known: map<nat, bool>, known': map<nat, bool>, ids: set<nat>) {
    && (forall i :: i in known ==> i in known' && known'[i] == known[i])
    && (forall i :: i in known' && i !in known ==> i in ids)
  }

  ghost function IdsOf(cs: seq<Tree>): set<nat>
    decreases cs, 0
  {
    set i, x | 0 <= i < |cs| && x in cs[i].Ids() :: x
  }

  ghost predicate DistinctAll(cs: seq<Tree>)
    decreases cs, 0
  {
    (forall i :: 0 <= i < |cs| ==> cs[i].Distinct()) && forall i, j :: 0 <= i < j < |cs| ==> cs[i].Ids() !! cs[j].Ids()
  }

  lemma OwnIds(cs: seq<Tree>, i: nat)
    requires i < |cs|
    ensures cs[i].Ids() <= IdsOf(cs) && cs[i].id in cs[i].Ids()
  {
  }

  /** evalMatchTree: look the node up, or evaluate it and remember the answer if it is sure. */
  method Evaluate(t: Tree, doc: u32, cost: nat, known: map<nat, bool>, ghost n: nat)
    returns (v: bool, sure: bool, known': map<nat, bool>)
    requires t.Ready(doc) && t.Proper(n) && doc < n && t.Distinct() && t.Noted(known, doc)
    modifies t.Objects()
    ensures t.Ready(doc)
    ensures t.Noted(known', doc) && Extends(known, known', t.Ids())
    ensures sure ==> v == t.Sat(doc) && t.id in known'
    ensures cost >= CostMax ==> sure
    decreases t, 2
  {
    hide Tree.Ready, Tree.Sat, Tree.Proper, Tree.Noted, Tree.Distinct, Tree.Decided;
    assert t.id in t.Ids();
    if t.id in known {
      KnownIsRight(t, known, doc);
      return known[t.id], true, known;
    }
    v, sure, known' := t.Matches(doc, cost, known, n);
    if sure {
      NoteSelf(t, known', v, doc);
      known' := known'[t.id := v];
    }
  }

  lemma KnownIsRight(t: Tree, known: map<nat, bool>, d: nat)
    requires t.Noted(known, d) && t.id in known
    ensures known[t.id] == t.Sat(d)
  {
  }

  /** A sure value can be put into the table. */
  lemma NoteSelf(t: Tree, known: map<nat, bool>, v: bool, d: nat)
    requires t.Distinct() && t.Noted(known, d) && t.id !in known && v == t.Sat(d) && (v ==> t.Decided(known, d))
    ensures t.Noted(known[t.id := v], d)
  {
    hide Tree.Sat, Atom.Settled;
    var known' := known[t.id := v];
    match t
    case Leaf(_, _) =>
    case And(_, cs) => NoteOther(cs, known, known', t.id, d);
    case Or(_, cs) => NoteOther(cs, known, known', t.id, d);
    case Not(_, c) => c.NotedElsewhere(known, known', d);
    case NoVisit(_, c) => c.NotedElsewhere(known, known', d);
  }

  lemma NoteOther(cs: seq<Tree>, known: map<nat, bool>, known': map<nat, bool>, id: nat, d: nat)
    requires id !in IdsOf(cs) && (forall i :: 0 <= i < |cs| ==> cs[i].Noted(known, d))
    requires known'.Keys == known.Keys + {id} && forall x :: x in known && x != id ==> known'[x] == known[x]
    ensures forall i :: 0 <= i < |cs| ==> cs[i].Noted(known', d)
  {
    hide Tree.Noted;
    forall i | 0 <= i < |cs| ensures cs[i].Noted(known', d) {
      OwnIds(cs, i);
      cs[i].NotedElsewhere(known, known', d);
    }
  }

  /** Evaluating one child leaves what is noted about the others. */
  lemma OthersNoted(cs: seq<Tree>, k: nat, known: map<nat, bool>, known': map<nat, bool>, d: nat)
    requires k < |cs| && DistinctAll(cs) && Extends(known, known', cs[k].Ids())
    requires forall i :: 0 <= i < |cs| && i != k ==> cs[i].Noted(known, d)
    ensures forall i :: 0 <= i < |cs| && i != k ==> cs[i].Noted(known', d)
  {
    hide Tree.Noted, Tree.Distinct;
    forall i | 0 <= i < |cs| && i != k ensures cs[i].Noted(known', d) {
      assert cs[i].Ids() !! cs[k].Ids() by {
        if i < k { assert cs[i].Ids() !! cs[k].Ids(); } else { assert cs[k].Ids() !! cs[i].Ids(); }
      }
      cs[i].NotedElsewhere(known, known', d);
    }
  }

  lemma ExtendsMore(known: map<nat, bool>, mid: map<nat, bool>, known': map<nat, bool>, cs: seq<Tree>, k: nat)
    requires k < |cs| && Extends(known, mid, IdsOf(cs)) && Extends(mid, known', cs[k].Ids())
    ensures Extends(known, known', IdsOf(cs))
  {
    OwnIds(cs, k);
  }

  /** All children are ready, and the table is right about them. */
  ghost predicate AllNoted(cs: seq<Tree>, known: map<nat, bool>, d: nat)
    reads ObjectsOf(cs)
  {
    forall i :: 0 <= i < |cs| ==> cs[i].Ready(d) && cs[i].Noted(known, d)
  }

  /** Evaluate, for one of several children. */
  method EvaluateChild(cs: seq<Tree>, k: nat, doc: u32, cost: nat, known: map<nat, bool>, ghost n: nat)
    returns (v: bool, sure: bool, known': map<nat, bool>)
    requires k < |cs| && Disjoint(cs) && DistinctAll(cs) && (forall i :: 0 <= i < |cs| ==> cs[i].Proper(n))
    requires doc < n && AllNoted(cs, known, doc)
    modifies ObjectsOf(cs)
    ensures AllNoted(cs, known', doc) && Extends(known, known', cs[k].Ids())
    ensures sure ==> v == cs[k].Sat(doc) && cs[k].id in known'
    ensures cost >= CostMax ==> sure
    decreases cs, 3
  {
    hide Tree.Ready, Tree.Sat, Tree.Proper, Tree.Noted, Tree.Distinct, Extends;
    assert forall i :: 0 <= i < |cs| ==> allocated(cs[i].Objects());
    v, sure, known' := Evaluate(cs[k], doc, cost, known, n);
    assert forall i :: 0 <= i < |cs| && i != k ==> cs[i].Ready(doc) && cs[i].Noted(known, doc);
    OthersNoted(cs, k, known, known', doc);
  }

  /** andMatchTree.matches: a sure false ends the evaluation. */
  method AllMatch(cs: seq<Tree>, doc: u32, cost: nat, known: map<nat, bool>, ghost n: nat)
    returns (v: bool, sure: bool, known': map<nat, bool>)
    requires Disjoint(cs) && DistinctAll(cs) && (forall i :: 0 <= i < |cs| ==> cs[i].Proper(n))
    requires doc < n && AllNoted(cs, known, doc)
    modifies ObjectsOf(cs)
    ensures AllNoted(cs, known', doc) && Extends(known, known', IdsOf(cs))
    ensures sure ==> v == AllSat(cs, doc)
    ensures sure && v ==> forall i :: 0 <= i < |cs| ==> cs[i].id in known'
    ensures cost >= CostMax ==> sure
    decreases cs, 4
  {
    hide Tree.Sat, Tree.Proper, AllNoted, Extends, Disjoint, DistinctAll, ObjectsOf, Tree.Objects, Tree.Ids, IdsOf, Tree.Distinct, Tree.Noted,
      Tree.Ready, Tree.Decided;
    sure, known' := true, known;
    NothingAdded(known, cs);
    for k := 0 to |cs|
      invariant AllNoted(cs, known', doc) && Extends(known, known', IdsOf(cs))
      invariant sure ==> forall i :: 0 <= i < k ==> cs[i].Sat(doc) && cs[i].id in known'
      invariant cost >= CostMax ==> sure
    {
      var w, ok, more := EvaluateChild(cs, k, doc, cost, known', n);
      StillKnown(known', more, cs[k].Ids());
      ExtendsMore(known, known', more, cs, k);
      known' := more;
      if ok && !w {
        return false, true, known';
      }
      if !ok {
        sure := false;
      }
    }
    v := true;
  }

  lemma NothingAdded(known: map<nat, bool>, cs: seq<Tree>)
    ensures Extends(known, known, IdsOf(cs))
  {
  }

  lemma StillKnown(known: map<nat, bool>, known': map<nat, bool>, ids: set<nat>)
    requires Extends(known, known', ids)
    ensures known.Keys <= known'.Keys
  {
  }

  /** orMatchTree.matches: every child is evaluated, for ranking. */
  method AnyMatches(cs: seq<Tree>, doc: u32, cost: nat, known: map<nat, bool>, ghost n: nat)
    returns (v: bool, sure: bool, known': map<nat, bool>)
    requires Disjoint(cs) && DistinctAll(cs) && (forall i :: 0 <= i < |cs| ==> cs[i].Proper(n))
    requires doc < n && AllNoted(cs, known, doc)
    modifies ObjectsOf(cs)
    ensures AllNoted(cs, known', doc) && Extends(known, known', IdsOf(cs))
    ensures sure ==> v == AnySat(cs, doc)
    ensures sure ==> forall i :: 0 <= i < |cs| ==> cs[i].id in known'
    ensures cost >= CostMax ==> sure
    decreases cs, 4
  {
    hide Tree.Sat, Tree.Proper, AllNoted, Extends, Disjoint, DistinctAll, ObjectsOf, Tree.Objects, Tree.Ids, IdsOf, Tree.Distinct, Tree.Noted,
      Tree.Ready, Tree.Decided;
    v, sure, known' := false, true, known;
    NothingAdded(known, cs);
    for k := 0 to |cs|
      invariant AllNoted(cs, known', doc) && Extends(known, known', IdsOf(cs))
      invariant sure ==> (v <==> exists i :: 0 <= i < k && cs[i].Sat(doc))
      invariant sure ==> forall i :: 0 <= i < k ==> cs[i].id in known'
      invariant cost >= CostMax ==> sure
    {
      var w, ok, more := EvaluateChild(cs, k, doc, cost, known', n);
      StillKnown(known', more, cs[k].Ids());
      ExtendsMore(known, known', more, cs, k);
      known' := more;
      if ok {
        v := v || w;
      } else {
        sure := false;
      }
    }
  }

  method PrepareAll(cs: seq<Tree>, doc: u32, ghost cursor: int, ghost n: nat)
    requires Disjoint(cs) && forall i :: 0 <= i < |cs| ==> cs[i].Proper(n) && cs[i].Ready(cursor)
    requires cursor < doc < n
    modifies ObjectsOf(cs)
    ensures forall i :: 0 <= i < |cs| ==> cs[i].Ready(doc)
    decreases cs, 0
  {
    hide Tree.Ready, Tree.Proper;
    for k := 0 to |cs|
      invariant forall i :: 0 <= i < k ==> cs[i].Ready(doc)
      invariant forall i :: k <= i < |cs| ==> cs[i].Ready(cursor)
    {
      assert forall i :: 0 <= i < |cs| ==> allocated(cs[i].Objects());
      cs[k].Prepare(doc, cursor, n);
    }
  }

  ghost predicate Disjoint(cs: seq<Tree>) {
    forall i, j :: 0 <= i < j < |cs| ==> cs[i].Objects() !! cs[j].Objects()
  }

  ghost predicate JumpsOf(cs: seq<Tree>, cursor: int, ds: seq<u32>)
    decreases cs, 0
  {
    |ds| == |cs| && forall i :: 0 <= i < |cs| ==> cs[i].Jumps(cursor, ds[i])
  }

  lemma JumpsMore(cs: seq<Tree>, k: nat, cursor: int, ds: seq<u32>, m: u32)
    requires k < |cs| && JumpsOf(cs[..k], cursor, ds) && cs[k].Jumps(cursor, m)
    ensures JumpsOf(cs[..k + 1], cursor, ds + [m])
  {
    hide Tree.Jumps;
    var a, b, e := cs[..k], cs[..k + 1], ds + [m];
    forall i | 0 <= i < |b| ensures b[i].Jumps(cursor, e[i]) {
      assert i < k ==> a[i] == b[i] && e[i] == ds[i];
    }
  }

  ghost predicate AllSat(cs: seq<Tree>, d: nat)
    decreases cs, 0
  {
    forall i :: 0 <= i < |cs| ==> cs[i].Sat(d)
  }

  ghost predicate AnySat(cs: seq<Tree>, d: nat)
    decreases cs, 0
  {
    exists i :: 0 <= i < |cs| && cs[i].Sat(d)
  }

  ghost function ObjectsOf(cs: seq<Tree>): set<object> {
    set i, o | 0 <= i < |cs| && o in cs[i].Objects() :: o
  }

  method NextDocOfAll(cs: seq<Tree>, ghost cursor: int, ghost n: nat) returns (doc: u32)
    requires Disjoint(cs) && cursor < n && forall i :: 0 <= i < |cs| ==> cs[i].Proper(n) && cs[i].Ready(cursor)
    modifies ObjectsOf(cs)
    ensures forall i :: 0 <= i < |cs| ==> cs[i].Ready(cursor)
    ensures forall d :: cursor < d < doc && 0 <= d < n ==> !AllSat(cs, d)
    ensures exists ds :: JumpsOf(cs, cursor, ds) && (forall i :: 0 <= i < |ds| ==> ds[i] <= doc) && (doc == 0 || doc in ds)
    decreases cs, 0
  {
    hide Tree.Ready, Tree.Sat, Tree.Proper, Tree.Jumps, Tree.Distinct;
    doc := 0;
    ghost var w, ds: seq<u32> := 0, [];
    for k := 0 to |cs|
      invariant forall i :: 0 <= i < |cs| ==> cs[i].Ready(cursor)
      invariant doc > 0 ==> 0 <= w < |cs| && forall d :: cursor < d < doc && 0 <= d < n ==> !cs[w].Sat(d)
      invariant JumpsOf(cs[..k], cursor, ds) && (forall i :: 0 <= i < |ds| ==> ds[i] <= doc) && (doc == 0 || doc in ds)
    {
      assert forall i :: 0 <= i < |cs| ==> allocated(cs[i].Objects());
      var m := cs[k].NextDoc(cursor, n);
      JumpsMore(cs, k, cursor, ds, m);
      ds := ds + [m];
      if m > doc {
        doc := m;
        w := k;
      }
    }
    assert cs[..|cs|] == cs;
    forall d | cursor < d < doc && 0 <= d < n ensures !AllSat(cs, d) {
      assert !cs[w].Sat(d);
    }
  }

  method NextDocOfAny(cs: seq<Tree>, ghost cursor: int, ghost n: nat) returns (doc: u32)
    requires Disjoint(cs) && cursor < n && forall i :: 0 <= i < |cs| ==> cs[i].Proper(n) && cs[i].Ready(cursor)
    modifies ObjectsOf(cs)
    ensures forall i :: 0 <= i < |cs| ==> cs[i].Ready(cursor)
    ensures forall d :: cursor < d < doc && 0 <= d < n ==> !AnySat(cs, d)
    ensures exists ds :: JumpsOf(cs, cursor, ds) && (forall i :: 0 <= i < |ds| ==> doc <= ds[i]) && (doc == MaxU32 || doc in ds)
    decreases cs, 0
  {
    hide Tree.Ready, Tree.Sat, Tree.Proper, Tree.Jumps, Tree.Distinct;
    doc := MaxU32;
    ghost var ds: seq<u32> := [];
    for k := 0 to |cs|
      invariant forall i :: 0 <= i < |cs| ==> cs[i].Ready(cursor)
      invariant forall d, i :: cursor < d < doc && 0 <= d < n && 0 <= i < k ==> !cs[i].Sat(d)
      invariant JumpsOf(cs[..k], cursor, ds) && (forall i :: 0 <= i < |ds| ==> doc <= ds[i]) && (doc == MaxU32 || doc in ds)
    {
      assert forall i :: 0 <= i < |cs| ==> allocated(cs[i].Objects());
      var m := cs[k].NextDoc(cursor, n);
      JumpsMore(cs, k, cursor, ds, m);
      ds := ds + [m];
      if m < doc {
        doc := m;
      }
    }
    assert cs[..|cs|] == cs;
  }
}
