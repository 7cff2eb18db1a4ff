/** The indexing queue (cmd/zoekt-sourcegraph-indexserver/queue.go) over container/heap's algorithms. */
module IndexQueue {
  import opened Machine

  /** What the order of the queue depends on: whether the repository is up to date, and its sequence number. */
  datatype Key = Key(current: bool, seqNo: int)

  /** Less: stale repositories first, then first in first out. */
  predicate Before(x: Key, y: Key) {
    if x.current == y.current then x.seqNo < y.seqNo else !x.current
  }

  function Parent(k: int): int {
    if k <= 0 then 0 else (k - 1) / 2
  }

  // ----- heaps of keys -----

  predicate InOrder(ks: seq<Key>, k: int)
    requires 0 <= k < |ks|
  {
    !Before(ks[k], ks[Parent(k)])
  }

  /** The first `n` keys form a heap. */
  ghost predicate Heap(ks: seq<Key>, n: int)
    requires n <= |ks|
  {
    forall k :: 0 < k < n ==> InOrder(ks, k)
  }

  /** What is below `i` is in order with what is above `i`. */
  ghost predicate Bridged(ks: seq<Key>, n: int, i: int)
    requires n <= |ks|
  {
    i > 0 ==> forall k :: 0 < k < n && Parent(k) == i ==> !Before(ks[k], ks[Parent(i)])
  }

  /** A heap but for the key at `i`, which may be too small for its parent. */
  ghost predicate HeapUp(ks: seq<Key>, n: int, i: int)
    requires n <= |ks|
  {
    (forall k :: 0 < k < n && k != i ==> InOrder(ks, k)) && Bridged(ks, n, i)
  }

  /** A heap but for the key at `i`, which may be too large for its children, or too small for its parent at `top`. */
  ghost predicate HeapDown(ks: seq<Key>, n: int, i: int, top: int)
    requires n <= |ks|
  {
    (forall k :: 0 < k < n && Parent(k) != i && (k != i || i != top) ==> InOrder(ks, k)) && Bridged(ks, n, i)
  }

  function Swapped<T>(s: seq<T>, i: int, j: int): (r: seq<T>)
    requires 0 <= i < |s| && 0 <= j < |s|
    ensures |r| == |s| && multiset(r) == multiset(s)
    ensures r[i] == s[j] && r[j] == s[i] && forall k :: 0 <= k < |s| && k != i && k != j ==> r[k] == s[k]
  {
    SwapKeeps(s, i, j);
    s[i := s[j]][j := s[i]]
  }

  lemma SwapKeeps<T>(s: seq<T>, i: int, j: int)
    requires 0 <= i < |s| && 0 <= j < |s|
    ensures multiset(s[i := s[j]][j := s[i]]) == multiset(s)
  {
  }

  lemma UpStep(ks: seq<Key>, n: int, j: int)
    requires 0 < j < n <= |ks| && HeapUp(ks, n, j) && Before(ks[j], ks[Parent(j)])
    ensures HeapUp(Swapped(ks, Parent(j), j), n, Parent(j))
  {
    var p, r := Parent(j), Swapped(ks, Parent(j), j);
    assert p > 0 ==> InOrder(ks, p);
    forall k | 0 < k < n && k != p ensures InOrder(r, k) {
      assert k != j ==> InOrder(ks, k);
    }
    forall k | 0 < k < n && Parent(k) == p && p > 0 ensures !Before(r[k], r[Parent(p)]) {
      assert k != j ==> InOrder(ks, k);
    }
  }

  lemma UpDone(ks: seq<Key>, n: int, j: int)
    requires 0 <= j < n <= |ks| && HeapUp(ks, n, j) && (j == 0 || !Before(ks[j], ks[Parent(j)]))
    ensures Heap(ks, n)
  {
  }

  /** `j` is the child of `i` that comes first. */
  ghost predicate FirstChild(ks: seq<Key>, n: int, i: int, j: int)
    requires n <= |ks|
  {
    && 0 <= i < j < n && Parent(j) == i
    && forall k :: 0 < k < n && Parent(k) == i ==> !Before(ks[k], ks[j])
  }

  lemma DownStep(ks: seq<Key>, n: int, i: int, j: int, top: int)
    requires 0 <= top <= i < n <= |ks| && HeapDown(ks, n, i, top) && FirstChild(ks, n, i, j) && Before(ks[j], ks[i])
    ensures HeapDown(Swapped(ks, i, j), n, j, top)
  {
  }

  /** No child of `i` comes before it. */
  ghost predicate Settled(ks: seq<Key>, n: int, i: int)
    requires n <= |ks|
  {
    forall k :: 0 < k < n && Parent(k) == i ==> i < |ks| && !Before(ks[k], ks[i])
  }

  lemma ChooseChild(ks: seq<Key>, n: int, i: int, j: int)
    requires 0 <= i && 2 * i + 1 < n <= |ks|
    requires j == if 2 * i + 2 < n && Before(ks[2 * i + 2], ks[2 * i + 1]) then 2 * i + 2 else 2 * i + 1
    ensures FirstChild(ks, n, i, j)
    ensures !Before(ks[j], ks[i]) ==> Settled(ks, n, i)
  {
  }

  lemma NoChild(ks: seq<Key>, n: int, i: int)
    requires 0 <= i && 2 * i + 1 >= n && n <= |ks|
    ensures Settled(ks, n, i)
  {
  }

  /** Where the way down ends: with a heap if it moved or began at the root, and otherwise ready for the way up. */
  lemma DownDone(ks: seq<Key>, n: int, i: int, top: int)
    requires 0 <= top <= i <= n <= |ks| && HeapDown(ks, n, i, top) && Settled(ks, n, i)
    ensures i > top || top == 0 ==> Heap(ks, n)
    ensures i == top ==> HeapUp(ks, n, i)
  {
  }

  /** Changing one key of a heap leaves a heap but for that key. */
  lemma KeyChanged(ks: seq<Key>, ks': seq<Key>, i: int)
    requires Heap(ks, |ks|) && |ks'| == |ks| && 0 <= i < |ks| && forall k :: 0 <= k < |ks| && k != i ==> ks'[k] == ks[k]
    ensures HeapDown(ks', |ks|, i, i)
  {
    assert i > 0 ==> InOrder(ks, i);
    forall k | 0 < k < |ks| && k != i && Parent(k) != i ensures InOrder(ks', k) {
      assert InOrder(ks, k);
    }
    forall k | 0 < k < |ks| && Parent(k) == i && i > 0 ensures !Before(ks'[k], ks'[Parent(i)]) {
      assert InOrder(ks, k);
    }
  }

  lemma KeyAdded(ks: seq<Key>, x: Key)
    requires Heap(ks, |ks|)
    ensures HeapUp(ks + [x], |ks| + 1, |ks|)
  {
    var r := ks + [x];
    forall k | 0 < k < |ks| ensures InOrder(r, k) {
      assert InOrder(ks, k);
    }
  }

  lemma RootAway(ks: seq<Key>)
    requires ks != [] && Heap(ks, |ks|)
    ensures HeapDown(Swapped(ks, 0, |ks| - 1), |ks| - 1, 0, 0)
  {
    var r := Swapped(ks, 0, |ks| - 1);
    forall k | 0 < k < |ks| - 1 && Parent(k) != 0 ensures InOrder(r, k) {
      assert InOrder(ks, k);
    }
  }

  lemma HeapPrefix(ks: seq<Key>, n: int)
    requires 0 <= n <= |ks| && Heap(ks, n)
    ensures Heap(ks[..n], n)
  {
    forall k | 0 < k < n ensures InOrder(ks[..n], k) {
      assert InOrder(ks, k);
    }
  }

  /** In a heap nothing comes before the root. */
  lemma {:induction false} RootFirst(ks: seq<Key>, n: int, k: int)
    requires 0 <= k < n <= |ks| && Heap(ks, n)
    ensures !Before(ks[k], ks[0])
    decreases k
  {
    if k > 0 {
      RootFirst(ks, n, Parent(k));
      assert InOrder(ks, k);
    }
  }

  // ----- the queue as callers see it -----

  /** A known repository; `queued` is its sequence number while it is in the queue. */
  datatype Entry = Entry(indexed: string, latest: string, queued: Option<int>) {
    function Order(): Key
      requires queued.Some?
    {
      Key(indexed == latest, queued.value)
    }
  }

  type View = map<string, Entry>

  predicate IsQueued(v: View, repo: string) {
    repo in v && v[repo].queued.Some?
  }

  function EntryOf(v: View, repo: string): Entry {
    if repo in v then v[repo] else Entry("", "", None)
  }

  /** Sequence numbers in use are distinct and not above `top`. */
  ghost predicate Numbered(v: View, top: int) {
    && (forall a :: IsQueued(v, a) ==> v[a].queued.value <= top)
    && forall a, b :: IsQueued(v, a) && IsQueued(v, b) && a != b ==> v[a].queued.value != v[b].queued.value
  }

  /** The repository to be popped: it comes before every other queued one. */
  ghost predicate IsNext(v: View, repo: string) {
    IsQueued(v, repo) && forall b :: IsQueued(v, b) && b != repo ==> Before(v[repo].Order(), v[b].Order())
  }

  /** The latest commit of the repository is not indexed. */
  predicate IsStale(v: View, repo: string)
    requires repo in v
  {
    v[repo].indexed != v[repo].latest
  }

  /** What the comments on Less promise: stale repositories first, and of one kind the one that was added first. */
  ghost predicate ComesFirst(v: View, repo: string) {
    && IsQueued(v, repo)
    && (forall b :: IsQueued(v, b) && IsStale(v, b) ==> IsStale(v, repo))
    && (forall b :: IsQueued(v, b) && IsStale(v, b) == IsStale(v, repo) ==> v[repo].queued.value <= v[b].queued.value)
  }

  /** The order of the heap is that order. */
  lemma NextIffFirst(v: View, top: int, repo: string)
    requires Numbered(v, top)
    ensures IsNext(v, repo) <==> ComesFirst(v, repo)
  {
    if ComesFirst(v, repo) {
      forall b | IsQueued(v, b) && b != repo ensures Before(v[repo].Order(), v[b].Order()) {
        assert v[repo].queued.value != v[b].queued.value;
      }
    }
    if IsNext(v, repo) {
      forall b | IsQueued(v, b)
        ensures IsStale(v, b) ==> IsStale(v, repo)
        ensures IsStale(v, b) == IsStale(v, repo) ==> v[repo].queued.value <= v[b].queued.value
      {
        assert b != repo ==> Before(v[repo].Order(), v[b].Order());
      }
    }
  }

  /** AddOrUpdate, on the view: a repository that was not queued gets a new number, one that was keeps its own. */
  function Added(v: View, top: int, repo: string, commit: string): View {
    var e := EntryOf(v, repo);
    v[repo := Entry(e.indexed, commit, Some(if e.queued.Some? then e.queued.value else top + 1))]
  }

  /** SetIndexed, on the view: never adds to the queue. */
  function Indexed(v: View, repo: string, commit: string): View {
    v[repo := EntryOf(v, repo).(indexed := commit)]
  }

  /** Pop, on the view. */
  function Popped(v: View, repo: string): View {
    v[repo := EntryOf(v, repo).(queued := None)]
  }

  lemma NumberedPut(v: View, top: int, repo: string, e: Entry, top': int)
    requires Numbered(v, top) && top <= top'
    requires e.queued.Some? ==> top < e.queued.value <= top' || (IsQueued(v, repo) && e.queued == v[repo].queued)
    ensures Numbered(v[repo := e], top')
  {
    var w := v[repo := e];
    assert forall a :: a != repo ==> IsQueued(w, a) == IsQueued(v, a) && (a in v ==> w[a] == v[a]);
  }

  lemma AddedIs(v: View, top: int, repo: string, commit: string)
    requires Numbered(v, top)
    ensures var v' := v[repo := EntryOf(v, repo)];
            && v'[repo := Entry(v'[repo].indexed, commit, Some(if v'[repo].queued.Some? then v'[repo].queued.value else top + 1))]
               == Added(v, top, repo, commit)
            && Numbered(Added(v, top, repo, commit), if v'[repo].queued.Some? then top else top + 1)
  {
    NumberedPut(v, top, repo, Added(v, top, repo, commit)[repo], if IsQueued(v, repo) then top else top + 1);
  }

  lemma PutTwice(v: View, repo: string, e: Entry, e': Entry)
    ensures v[repo := e][repo := e'] == v[repo := e']
  {
  }

  lemma PoppedIs(v: View, top: int, repo: string)
    requires Numbered(v, top) && IsQueued(v, repo)
    ensures repo in v && Numbered(Popped(v, repo), top)
  {
    NumberedPut(v, top, repo, Popped(v, repo)[repo], top);
  }

  lemma AddedStep(v: View, top: int, repo: string, commit: string)
    ensures EntryOf(v, repo).queued.Some? <==> IsQueued(v, repo)
    ensures Step(State(v, top), AddOrUpdateCall(repo, commit),
                 State(Added(v, top, repo, commit), if IsQueued(v, repo) then top else top + 1))
  {
  }

  lemma IndexedIs(v: View, top: int, repo: string, commit: string)
    requires Numbered(v, top)
    ensures var v' := v[repo := EntryOf(v, repo)];
            && v'[repo := Entry(commit, v'[repo].latest, v'[repo].queued)] == Indexed(v, repo, commit)
            && Numbered(Indexed(v, repo, commit), top)
  {
    NumberedPut(v, top, repo, Indexed(v, repo, commit)[repo], top);
  }

  // ----- the objects -----

  class QueueItem {
    const repoName: string
    var indexedCommit: string
    var latestCommit: string
    var heapIdx: int
    var seqNo: int

    constructor (repoName: string)
      ensures this.repoName == repoName && indexedCommit == "" && latestCommit == "" && heapIdx == -1 && seqNo == 0
    {
      this.repoName := repoName;
      indexedCommit, latestCommit, heapIdx, seqNo := "", "", -1, 0;
    }

    function Order(): Key
      reads this
    {
      Key(indexedCommit == latestCommit, seqNo)
    }

    function Known(): Entry
      reads this
    {
      Entry(indexedCommit, latestCommit, if heapIdx < 0 then None else Some(seqNo))
    }
  }

  ghost function KeysOf(pq: seq<QueueItem>): (ks: seq<Key>)
    reads pq
    ensures |ks| == |pq| && forall i :: 0 <= i < |pq| ==> ks[i] == pq[i].Order()
  {
    if pq == [] then [] else KeysOf(pq[..|pq| - 1]) + [pq[|pq| - 1].Order()]
  }

  class Queue {
    var items: map<string, QueueItem>
    var pq: seq<QueueItem>
    var seqNo: int

    /** Back-pointers and positions agree; an item is off the heap exactly when its position is -1. */
    ghost predicate Linked()
      reads this, items.Values
    {
      && (forall r :: r in items ==> items[r].repoName == r)
      && (forall i :: 0 <= i < |pq| ==> pq[i].repoName in items && items[pq[i].repoName] == pq[i])
      && (forall i :: 0 <= i < |pq| ==> pq[i].heapIdx == i)
      && (forall r :: r in items ==> -1 <= items[r].heapIdx < |pq|)
      && (forall r :: r in items && items[r].heapIdx >= 0 ==> pq[items[r].heapIdx] == items[r])
    }

    ghost function View(): (v: View)
      reads this, items.Values
      ensures v.Keys == items.Keys && forall r :: r in items ==> v[r] == items[r].Known()
    {
      map r | r in items :: items[r].Known()
    }

    ghost predicate Valid()
      reads this, items.Values
    {
      Linked() && Numbered(View(), seqNo) && Heap(KeysOf(pq), |pq|)
    }

    constructor ()
      ensures Valid() && View() == map[] && seqNo == 0
    {
      items, pq, seqNo := map[], [], 0;
    }

    predicate Less(i: int, j: int)
      requires 0 <= i < |pq| && 0 <= j < |pq|
      reads this, pq
    {
      Before(pq[i].Order(), pq[j].Order())
    }

    method Swap(i: int, j: int)
      requires Linked() && 0 <= i < |pq| && 0 <= j < |pq|
      modifies this`pq, items.Values`heapIdx
      ensures Linked() && pq == Swapped(old(pq), i, j) && View() == old(View())
    {
      hide Swapped, View, QueueItem.Order;
      pq := Swapped(pq, i, j);
      pq[i].heapIdx := i;
      pq[j].heapIdx := j;
      assert forall r :: r in items ==> items[r].Known() == old(items[r].Known());
    }

    /** container/heap's up. */
    method Up(j0: int)
      requires Linked() && 0 <= j0 < |pq| && HeapUp(KeysOf(pq), |pq|, j0)
      modifies this`pq, items.Values`heapIdx
      ensures Linked() && |pq| == old(|pq|) && Heap(KeysOf(pq), |pq|) && View() == old(View())
    {
      hide KeysOf, Swapped, HeapUp, Heap, Linked, View;
      var j := j0;
      while true
        invariant Linked() && |pq| == old(|pq|) && 0 <= j < |pq| && HeapUp(KeysOf(pq), |pq|, j)
        invariant View() == old(View())
        decreases j
      {
        var i := Parent(j);
        if i == j || !Less(j, i) {
          break;
        }
        ghost var ks := KeysOf(pq);
        UpStep(ks, |pq|, j);
        Swap(i, j);
        assert KeysOf(pq) == Swapped(ks, i, j);
        j := i;
      }
      UpDone(KeysOf(pq), |pq|, j);
    }

    /** container/heap's down, on the first `n` items. */
    method Down(i0: int, n: int) returns (moved: bool)
      requires Linked() && 0 <= i0 <= n <= |pq| && HeapDown(KeysOf(pq), n, i0, i0)
      modifies this`pq, items.Values`heapIdx
      ensures Linked() && |pq| == old(|pq|) && (forall k :: n <= k < |pq| ==> pq[k] == old(pq)[k])
      ensures moved || i0 == 0 ==> Heap(KeysOf(pq), n)
      ensures !moved ==> HeapUp(KeysOf(pq), n, i0)
      ensures View() == old(View())
    {
      hide KeysOf, Swapped, HeapUp, Heap, HeapDown, Parent, Before, FirstChild, Settled, Linked, View, QueueItem.Known;
      var i := i0;
      while true
        invariant Linked() && |pq| == old(|pq|) && i0 <= i <= n && HeapDown(KeysOf(pq), n, i, i0)
        invariant forall k :: n <= k < |pq| ==> pq[k] == old(pq)[k]
        invariant View() == old(View())
        decreases n - i
      {
        var j1 := 2 * i + 1;
        if j1 >= n {
          NoChild(KeysOf(pq), n, i);
          break;
        }
        var j := j1;
        if j1 + 1 < n && Less(j1 + 1, j1) {
          j := j1 + 1;
        }
        ghost var ks := KeysOf(pq);
        ChooseChild(ks, n, i, j);
        if !Less(j, i) {
          break;
        }
        DownStep(ks, n, i, j, i0);
        Swap(i, j);
        assert KeysOf(pq) == Swapped(ks, i, j);
        i := j;
      }
      DownDone(KeysOf(pq), n, i, i0);
      moved := i > i0;
    }

    /** container/heap's Fix, after the key of item `i` has changed. */
    method Fix(i: int)
      requires Linked() && 0 <= i < |pq| && HeapDown(KeysOf(pq), |pq|, i, i)
      modifies this`pq, items.Values`heapIdx
      ensures Linked() && |pq| == old(|pq|) && Heap(KeysOf(pq), |pq|)
      ensures View() == old(View())
    {
      hide KeysOf, HeapUp, Heap, HeapDown, Linked, View;
      var moved := Down(i, |pq|);
      if !moved {
        Up(i);
      }
    }

    /** pqueue's Push: the item goes to the end. */
    method PushLast(item: QueueItem)
      requires Linked() && item in items.Values && item.heapIdx == -1 && Heap(KeysOf(pq), |pq|)
      modifies this`pq, items.Values`heapIdx
      ensures Linked() && pq == old(pq) + [item] && HeapUp(KeysOf(pq), |pq|, |pq| - 1)
      ensures View() == old(View())[item.repoName := Entry(item.indexedCommit, item.latestCommit, Some(item.seqNo))]
    {
      hide KeysOf, HeapUp, Heap, View;
      ghost var ks := KeysOf(pq);
      item.heapIdx := |pq|;
      pq := pq + [item];
      KeyAdded(ks, item.Order());
      assert KeysOf(pq) == ks + [item.Order()];
    }

    /** container/heap's Push. */
    method Push(item: QueueItem)
      requires Linked() && item in items.Values && item.heapIdx == -1 && Heap(KeysOf(pq), |pq|)
      modifies this`pq, items.Values`heapIdx
      ensures Linked() && Heap(KeysOf(pq), |pq|)
      ensures View() == old(View())[item.repoName := Entry(item.indexedCommit, item.latestCommit, Some(item.seqNo))]
    {
      hide KeysOf, HeapUp, Heap, View, Linked;
      PushLast(item);
      Up(|pq| - 1);
    }

    /** pqueue's Pop: the last item leaves the heap. */
    method DropLast() returns (item: QueueItem)
      requires Linked() && pq != [] && Heap(KeysOf(pq), |pq| - 1)
      modifies this`pq, items.Values`heapIdx
      ensures item == old(pq)[|old(pq)| - 1] && item.heapIdx == -1
      ensures Linked() && Heap(KeysOf(pq), |pq|) && View() == Popped(old(View()), item.repoName)
    {
      hide KeysOf, Heap, View;
      var n := |pq| - 1;
      item := pq[n];
      ghost var ks := KeysOf(pq);
      HeapPrefix(ks, n);
      item.heapIdx := -1;
      pq := pq[..n];
      assert KeysOf(pq) == ks[..n];
    }

    /** container/heap's Pop. */
    method Remove() returns (item: QueueItem)
      requires Linked() && pq != [] && Heap(KeysOf(pq), |pq|)
      modifies this`pq, items.Values`heapIdx
      ensures item == old(pq)[0] && item.heapIdx == -1
      ensures Linked() && Heap(KeysOf(pq), |pq|)
      ensures View() == Popped(old(View()), item.repoName)
    {
      hide KeysOf, HeapUp, Heap, HeapDown, Linked, View, Popped;
      var n := |pq| - 1;
      ghost var ks := KeysOf(pq);
      RootAway(ks);
      Swap(0, n);
      assert KeysOf(pq) == Swapped(ks, 0, n);
      var _ := Down(0, n);
      item := DropLast();
    }

    /** get: the item of the repository, created if it has none. */
    method Get(repo: string) returns (item: QueueItem)
      requires Linked() && Heap(KeysOf(pq), |pq|)
      modifies this`items
      ensures repo in items && items[repo] == item && item.repoName == repo && item in items.Values
      ensures forall o :: o in items.Values ==> o in old(items.Values) || fresh(o)
      ensures Linked() && Heap(KeysOf(pq), |pq|)
      ensures View() == old(View())[repo := EntryOf(old(View()), repo)]
    {
      hide KeysOf, Heap;
      if repo in items {
        item := items[repo];
      } else {
        item := new QueueItem(repo);
        items := items[repo := item];
      }
    }

    method SetCommits(item: QueueItem, indexed: string, latest: string)
      requires Linked() && Heap(KeysOf(pq), |pq|) && item in items.Values && item.heapIdx >= 0
      modifies item`indexedCommit, item`latestCommit
      ensures item.indexedCommit == indexed && item.latestCommit == latest
      ensures Linked() && item.heapIdx < |pq| && HeapDown(KeysOf(pq), |pq|, item.heapIdx, item.heapIdx)
      ensures View() == old(View())[item.repoName := Entry(indexed, latest, Some(item.seqNo))]
    {
      hide KeysOf, Heap, HeapDown, View;
      ghost var ks := KeysOf(pq);
      item.indexedCommit, item.latestCommit := indexed, latest;
      KeyChanged(ks, KeysOf(pq), item.heapIdx);
    }

    /** The commits of a queued item change, and its place with them. */
    method Requeue(item: QueueItem, indexed: string, latest: string)
      requires Linked() && Heap(KeysOf(pq), |pq|) && item in items.Values && item.heapIdx >= 0
      modifies this`pq, items.Values`heapIdx, item`indexedCommit, item`latestCommit
      ensures Linked() && Heap(KeysOf(pq), |pq|)
      ensures View() == old(View())[item.repoName := Entry(indexed, latest, Some(item.seqNo))]
    {
      hide KeysOf, Heap, HeapDown, View, Linked, QueueItem.Order;
      SetCommits(item, indexed, latest);
      Fix(item.heapIdx);
    }

    /** An item that is not queued gets the next number. */
    method Number(item: QueueItem, latest: string)
      requires Linked() && item in items.Values && item.heapIdx < 0
      modifies this`seqNo, item`seqNo, item`latestCommit
      ensures Linked() && KeysOf(pq) == old(KeysOf(pq)) && seqNo == old(seqNo) + 1
      ensures item.seqNo == seqNo && item.latestCommit == latest
      ensures View() == old(View())[item.repoName := Entry(item.indexedCommit, latest, None)]
    {
      hide KeysOf, View;
      ghost var ks := KeysOf(pq);
      item.latestCommit := latest;
      seqNo := seqNo + 1;
      item.seqNo := seqNo;
      assert KeysOf(pq) == ks;
    }

    /** And is queued. */
    method Enqueue(item: QueueItem, latest: string)
      requires Linked() && Heap(KeysOf(pq), |pq|) && item in items.Values && item.heapIdx < 0
      modifies this`pq, this`seqNo, items.Values`heapIdx, item`seqNo, item`latestCommit
      ensures Linked() && Heap(KeysOf(pq), |pq|) && seqNo == old(seqNo) + 1
      ensures View() == old(View())[item.repoName := Entry(item.indexedCommit, latest, Some(seqNo))]
    {
      hide KeysOf, Heap, View, Linked, QueueItem.Order, QueueItem.Known;
      assert item.heapIdx == -1 by { Unqueued(item); }
      PutTwice(View(), item.repoName, Entry(item.indexedCommit, latest, None), Entry(item.indexedCommit, latest, Some(seqNo + 1)));
      Number(item, latest);
      Push(item);
    }

    lemma Unqueued(item: QueueItem)
      requires Linked() && item in items.Values && item.heapIdx < 0
      ensures item.heapIdx == -1
    {
    }

    /** The second half of AddOrUpdate: the item enters the queue, or moves in it (queue.go:66-76). */
    method Place(item: QueueItem, commit: string)
      requires Linked() && Heap(KeysOf(pq), |pq|) && item in items.Values && item.repoName in items && items[item.repoName] == item
      modifies this`pq, this`seqNo, items.Values`heapIdx, item`seqNo, item`indexedCommit, item`latestCommit
      ensures Linked() && Heap(KeysOf(pq), |pq|)
      ensures var e := old(View())[item.repoName];
              && seqNo == (if e.queued.Some? then old(seqNo) else old(seqNo) + 1)
              && View() == old(View())[item.repoName := Entry(e.indexed, commit, Some(if e.queued.Some? then e.queued.value else seqNo))]
    {
      hide KeysOf, Heap, View, Linked, QueueItem.Order;
      ghost var e := View()[item.repoName];
      assert e == item.Known() by { ViewAt(item); }
      if item.heapIdx < 0 {
        Enqueue(item, commit);
      } else {
        Requeue(item, item.indexedCommit, commit);
      }
    }

    lemma ViewAt(item: QueueItem)
      requires item.repoName in items && items[item.repoName] == item
      ensures View()[item.repoName] == item.Known()
    {
    }

    /** AddOrUpdate. */
    method AddOrUpdate(repo: string, commit: string)
      requires Valid()
      modifies this, items.Values
      ensures Valid() && View() == Added(old(View()), old(seqNo), repo, commit)
      ensures seqNo == if IsQueued(old(View()), repo) then old(seqNo) else old(seqNo) + 1
      ensures Step(State(old(View()), old(seqNo)), AddOrUpdateCall(repo, commit), State(View(), seqNo))
    {
      hide KeysOf, Heap, View, Linked, QueueItem.Order, Numbered, Added, EntryOf, IsQueued, Step;
      ghost var v, top := View(), seqNo;
      var item := Get(repo);
      Place(item, commit);
      AddedIs(v, top, repo, commit);
      AddedStep(v, top, repo, commit);
    }

    /** SetIndexed. */
    method SetIndexed(repo: string, commit: string)
      requires Valid()
      modifies this, items.Values
      ensures Valid() && View() == Indexed(old(View()), repo, commit) && seqNo == old(seqNo)
      ensures Step(State(old(View()), old(seqNo)), SetIndexedCall(repo, commit), State(View(), seqNo))
    {
      hide KeysOf, Heap, View, Linked, QueueItem.Order, Numbered, Indexed, EntryOf;
      IndexedIs(View(), seqNo, repo, commit);
      var item := Get(repo);
      assert View()[repo] == item.Known();
      if item.heapIdx >= 0 {
        Requeue(item, commit, item.latestCommit);
      } else {
        SetUnqueued(item, commit);
      }
    }

    method SetUnqueued(item: QueueItem, indexed: string)
      requires Linked() && Heap(KeysOf(pq), |pq|) && item in items.Values && item.heapIdx < 0
      modifies item`indexedCommit
      ensures Linked() && Heap(KeysOf(pq), |pq|)
      ensures View() == old(View())[item.repoName := Entry(indexed, item.latestCommit, None)]
    {
      hide KeysOf, Heap, View;
      ghost var ks := KeysOf(pq);
      item.indexedCommit := indexed;
      assert KeysOf(pq) == ks;
    }

    /** Pop: the repository that comes before all others in the queue. */
    method Pop() returns (repo: string, commit: string, ok: bool)
      requires Valid()
      modifies this, items.Values
      ensures Valid() && seqNo == old(seqNo)
      ensures ok <==> exists r :: IsQueued(old(View()), r)
      ensures ok ==> ComesFirst(old(View()), repo) && commit == old(View())[repo].latest && View() == Popped(old(View()), repo)
      ensures !ok ==> View() == old(View())
      ensures Step(State(old(View()), old(seqNo)), PopCall(if ok then Some(repo) else None), State(View(), seqNo))
    {
      hide KeysOf, Heap, View, Numbered, Linked, IsNext, IsQueued, Popped, ComesFirst;
      RootIsNext();
      if |pq| == 0 {
        return "", "", false;
      }
      NextIffFirst(View(), seqNo, pq[0].repoName);
      PoppedIs(View(), seqNo, pq[0].repoName);
      ViewAt(pq[0]);
      var item := Remove();
      return item.repoName, item.latestCommit, true;
    }

    lemma RootIsNext()
      requires Valid()
      ensures pq != [] ==> IsNext(View(), pq[0].repoName) && pq[0].repoName in items && items[pq[0].repoName] == pq[0]
      ensures pq == [] ==> forall r :: !IsQueued(View(), r)
    {
      var v := View();
      if pq != [] {
        var root := pq[0].repoName;
        assert items[root] == pq[0] && pq[0].heapIdx == 0;
        forall b | IsQueued(v, b) && b != root ensures Before(v[root].Order(), v[b].Order()) {
          var k := items[b].heapIdx;
          RootFirst(KeysOf(pq), |pq|, k);
          assert KeysOf(pq)[k] == v[b].Order() && KeysOf(pq)[0] == v[root].Order();
        }
      }
    }

    method Len() returns (n: int)
      requires Valid()
      ensures n == |set r | r in items && IsQueued(View(), r)|
    {
      n := |pq|;
      QueuedAreNames();
      CountNames(pq);
    }

    lemma QueuedAreNames()
      requires Linked()
      ensures (set r | r in items && IsQueued(View(), r)) == NamesOf(pq)
      ensures forall i, j :: 0 <= i < j < |pq| ==> pq[i].repoName != pq[j].repoName
    {
      forall r | r in items && items[r].heapIdx >= 0 ensures r in NamesOf(pq) {
        assert pq[items[r].heapIdx].repoName == r;
      }
    }
  }

  ghost function NamesOf(pq: seq<QueueItem>): set<string> {
    set i | 0 <= i < |pq| :: pq[i].repoName
  }

  lemma {:induction false} CountNames(pq: seq<QueueItem>)
    requires forall i, j :: 0 <= i < j < |pq| ==> pq[i].repoName != pq[j].repoName
    ensures |NamesOf(pq)| == |pq|
  {
    if pq == [] {
      assert NamesOf(pq) == {};
    } else {
      var n := |pq| - 1;
      CountNames(pq[..n]);
      forall r ensures r in NamesOf(pq) <==> r in NamesOf(pq[..n]) || r == pq[n].repoName {
        if r in NamesOf(pq[..n]) {
          var i :| 0 <= i < n && pq[..n][i].repoName == r;
          assert pq[i].repoName == r;
        }
        if r in NamesOf(pq) && r != pq[n].repoName {
          var i :| 0 <= i < |pq| && pq[i].repoName == r;
          assert pq[..n][i].repoName == r;
        }
      }
      assert NamesOf(pq) == NamesOf(pq[..n]) + {pq[n].repoName};
    }
  }

  // ----- whole runs -----

  /** A call on the queue; a Pop on an empty queue returns nothing. */
  datatype Call = AddOrUpdateCall(repo: string, commit: string) | SetIndexedCall(repo: string, commit: string) | PopCall(popped: Option<string>)

  datatype State = State(view: View, top: int)

  /** What the methods of Queue promise, as a relation. */
  ghost predicate Step(s: State, c: Call, t: State) {
    match c
    case AddOrUpdateCall(r, commit) =>
      t == State(Added(s.view, s.top, r, commit), if IsQueued(s.view, r) then s.top else s.top + 1)
    case SetIndexedCall(r, commit) => t == State(Indexed(s.view, r, commit), s.top)
    case PopCall(Some(r)) => ComesFirst(s.view, r) && t == State(Popped(s.view, r), s.top)
    case PopCall(None) => (forall r :: !IsQueued(s.view, r)) && t == s
  }

  ghost predicate IsRun(states: seq<State>, calls: seq<Call>) {
    |states| == |calls| + 1 && forall i :: 0 <= i < |calls| ==> Step(states[i], calls[i], states[i + 1])
  }

  lemma StepNumbered(s: State, c: Call, t: State)
    requires Numbered(s.view, s.top) && Step(s, c, t)
    ensures Numbered(t.view, t.top)
  {
    hide Numbered;
    match c
    case AddOrUpdateCall(r, commit) => AddedIs(s.view, s.top, r, commit);
    case SetIndexedCall(r, commit) => IndexedIs(s.view, s.top, r, commit);
    case PopCall(Some(r)) => PoppedIs(s.view, s.top, r);
    case PopCall(None) =>
  }

  /** Once queued, a repository keeps its number until it is popped. */
  lemma StepKeeps(s: State, c: Call, t: State, r: string)
    requires Step(s, c, t) && IsQueued(s.view, r) && c != PopCall(Some(r))
    ensures IsQueued(t.view, r) && t.view[r].queued == s.view[r].queued
  {
  }

  lemma {:induction false} StaysQueued(states: seq<State>, calls: seq<Call>, r: string)
    requires IsRun(states, calls) && IsQueued(states[0].view, r) && PopCall(Some(r)) !in calls
    ensures forall i :: 0 <= i < |states| ==> IsQueued(states[i].view, r) && states[i].view[r].queued == states[0].view[r].queued
  {
    var k := |calls|;
    if k > 0 {
      assert IsRun(states[..k], calls[..k - 1]);
      StaysQueued(states[..k], calls[..k - 1], r);
      assert IsQueued(states[..k][k - 1].view, r);
      StepKeeps(states[k - 1], calls[k - 1], states[k], r);
    }
  }

  /** The queued repositories with a smaller number. */
  ghost function Ahead(v: View, r: string): set<string>
    requires IsQueued(v, r)
  {
    set b | b in v && IsQueued(v, b) && v[b].queued.value < v[r].queued.value
  }

  /** Nobody gets ahead of a queued repository, and while it is stale every Pop takes one of those ahead of it. */
  lemma StepAhead(s: State, c: Call, t: State, r: string)
    requires Numbered(s.view, s.top) && Step(s, c, t) && IsQueued(s.view, r) && c != PopCall(Some(r))
    ensures IsQueued(t.view, r) && Ahead(t.view, r) <= Ahead(s.view, r)
    ensures c.PopCall? && s.view[r].indexed != s.view[r].latest ==> Ahead(t.view, r) < Ahead(s.view, r)
  {
    StepKeeps(s, c, t, r);
    match c
    case PopCall(Some(b)) =>
      if s.view[r].indexed != s.view[r].latest {
        assert s.view[b].queued.value < s.view[r].queued.value;
        assert b in Ahead(s.view, r) && b !in Ahead(t.view, r);
      }
    case _ =>
  }

  ghost function Pops(calls: seq<Call>): nat {
    if calls == [] then 0 else Pops(calls[..|calls| - 1]) + if calls[|calls| - 1].PopCall? then 1 else 0
  }

  /** No starvation: a repository that stays stale waits for no more Pops than there were repositories ahead of it. */
  lemma {:induction false} NoStarvation(states: seq<State>, calls: seq<Call>, r: string)
    requires IsRun(states, calls) && Numbered(states[0].view, states[0].top)
    requires IsQueued(states[0].view, r) && PopCall(Some(r)) !in calls
    requires forall i :: 0 <= i < |states| ==> r in states[i].view && states[i].view[r].indexed != states[i].view[r].latest
    ensures IsQueued(states[|calls|].view, r) && Numbered(states[|calls|].view, states[|calls|].top)
    ensures Pops(calls) + |Ahead(states[|calls|].view, r)| <= |Ahead(states[0].view, r)|
  {
    var k := |calls|;
    if k > 0 {
      assert IsRun(states[..k], calls[..k - 1]);
      NoStarvation(states[..k], calls[..k - 1], r);
      var s, c, t := states[k - 1], calls[k - 1], states[k];
      assert Step(s, c, t);
      StepNumbered(s, c, t);
      StepAhead(s, c, t, r);
      Smaller(Ahead(t.view, r), Ahead(s.view, r));
    }
  }

  lemma {:induction false} Smaller(a: set<string>, b: set<string>)
    requires a <= b
    ensures |a| <= |b| && (a < b ==> |a| < |b|)
  {
    assert b == a + (b - a);
    assert |b| == |a| + |b - a|;
    if a < b {
      var x :| x in b - a;
    }
  }

  /** The next repository is unique, so Pop has no choice. */
  lemma NextUnique(v: View, top: int, a: string, b: string)
    requires Numbered(v, top) && ComesFirst(v, a) && ComesFirst(v, b)
    ensures a == b
  {
    assert IsStale(v, a) == IsStale(v, b);
    assert v[a].queued.value == v[b].queued.value;
  }

  /**
   * First in, first out: a repository that is popped before one that was ahead of it in line is stale at that moment,
   * and the other one is not. So of two that stay up to date the one that was added first is popped first.
   */
  lemma FirstInFirstOut(states: seq<State>, calls: seq<Call>, k: nat, a: string, b: string)
    requires IsRun(states, calls) && k < |calls| && calls[k] == PopCall(Some(b))
    requires IsQueued(states[0].view, a) && IsQueued(states[0].view, b)
    requires states[0].view[a].queued.value < states[0].view[b].queued.value
    requires PopCall(Some(a)) !in calls[..k] && PopCall(Some(b)) !in calls[..k]
    ensures IsQueued(states[k].view, a) && IsQueued(states[k].view, b)
    ensures IsStale(states[k].view, b) && !IsStale(states[k].view, a)
  {
    assert IsRun(states[..k + 1], calls[..k]);
    StaysQueued(states[..k + 1], calls[..k], a);
    StaysQueued(states[..k + 1], calls[..k], b);
    var v := states[k].view;
    assert states[..k + 1][k] == states[k];
    assert Step(states[k], calls[k], states[k + 1]);
    assert ComesFirst(v, b);
  }

  // ----- what the calls have done -----

  /** The commit of the last AddOrUpdate of the repository. */
  ghost function LatestOf(calls: seq<Call>, r: string): string {
    if calls == [] then ""
    else match calls[|calls| - 1]
         case AddOrUpdateCall(b, commit) => if b == r then commit else LatestOf(calls[..|calls| - 1], r)
         case _ => LatestOf(calls[..|calls| - 1], r)
  }

  /** The commit of the last SetIndexed of the repository. */
  ghost function IndexedOf(calls: seq<Call>, r: string): string {
    if calls == [] then ""
    else match calls[|calls| - 1]
         case SetIndexedCall(b, commit) => if b == r then commit else IndexedOf(calls[..|calls| - 1], r)
         case _ => IndexedOf(calls[..|calls| - 1], r)
  }

  /** The call with which the repository entered the queue, if it has not been popped since. */
  ghost function EnteredAt(calls: seq<Call>, r: string): (at: Option<nat>)
    ensures at.Some? ==> at.value < |calls|
  {
    if calls == [] then None
    else
      var before := EnteredAt(calls[..|calls| - 1], r);
      match calls[|calls| - 1]
      case AddOrUpdateCall(b, _) => if b == r && before.None? then Some(|calls| - 1) else before
      case PopCall(Some(b)) => if b == r then None else before
      case _ => before
  }

  /** Commits and membership of one repository, from the calls alone. */
  ghost predicate Told(calls: seq<Call>, v: View, r: string) {
    && EntryOf(v, r).latest == LatestOf(calls, r) && EntryOf(v, r).indexed == IndexedOf(calls, r)
    && (IsQueued(v, r) <==> EnteredAt(calls, r).Some?)
  }

  /** Two queued repositories are in line as they entered. */
  ghost predicate InLine(calls: seq<Call>, v: View, a: string, b: string) {
    IsQueued(v, a) && IsQueued(v, b) && EnteredAt(calls, a).Some? && EnteredAt(calls, b).Some? ==>
      (v[a].queued.value < v[b].queued.value <==> EnteredAt(calls, a).value < EnteredAt(calls, b).value)
  }

  /** The queue after these calls. */
  ghost predicate Tells(calls: seq<Call>, v: View) {
    (forall r :: Told(calls, v, r)) && forall a, b :: InLine(calls, v, a, b)
  }

  /** A call tells the same of the repositories it does not name. */
  lemma OthersTold(calls: seq<Call>, c: Call, r: string)
    requires !c.PopCall? ==> c.repo != r
    requires c.PopCall? ==> c.popped != Some(r)
    ensures LatestOf(calls + [c], r) == LatestOf(calls, r) && IndexedOf(calls + [c], r) == IndexedOf(calls, r)
    ensures EnteredAt(calls + [c], r) == EnteredAt(calls, r)
  {
    assert (calls + [c])[..|calls|] == calls;
  }

  /** What it tells of the one it names. */
  lemma NamedTold(calls: seq<Call>, c: Call)
    ensures c.AddOrUpdateCall? ==>
              && LatestOf(calls + [c], c.repo) == c.commit && IndexedOf(calls + [c], c.repo) == IndexedOf(calls, c.repo)
              && EnteredAt(calls + [c], c.repo) == if EnteredAt(calls, c.repo).None? then Some(|calls|) else EnteredAt(calls, c.repo)
    ensures c.SetIndexedCall? ==>
              && LatestOf(calls + [c], c.repo) == LatestOf(calls, c.repo) && IndexedOf(calls + [c], c.repo) == c.commit
              && EnteredAt(calls + [c], c.repo) == EnteredAt(calls, c.repo)
    ensures c.PopCall? && c.popped.Some? ==>
              && LatestOf(calls + [c], c.popped.value) == LatestOf(calls, c.popped.value)
              && IndexedOf(calls + [c], c.popped.value) == IndexedOf(calls, c.popped.value)
              && EnteredAt(calls + [c], c.popped.value).None?
  {
    assert (calls + [c])[..|calls|] == calls;
  }

  /** The call tells the same of the repository. */
  ghost predicate SameTold(calls: seq<Call>, more: seq<Call>, a: string) {
    LatestOf(more, a) == LatestOf(calls, a) && IndexedOf(more, a) == IndexedOf(calls, a) && EnteredAt(more, a) == EnteredAt(calls, a)
  }

  /** A queued repository keeps its place, and a new one is behind all others. */
  ghost predicate KeepsPlace(calls: seq<Call>, more: seq<Call>, v: View, top: int, r: string, e: Entry) {
    e.queued.Some? ==>
      if IsQueued(v, r) then e.queued == v[r].queued && EnteredAt(more, r) == EnteredAt(calls, r)
      else e.queued.value > top && EnteredAt(more, r) == Some(|calls|)
  }

  /** One repository changes as the call tells. */
  ghost predicate Changed(calls: seq<Call>, more: seq<Call>, r: string, v: View, top: int, w: View) {
    && r in w && w == v[r := w[r]] && KeepsPlace(calls, more, v, top, r, w[r])
    && forall x :: x != r ==> SameTold(calls, more, x)
  }

  lemma ToldPut(calls: seq<Call>, more: seq<Call>, r: string, v: View, top: int, w: View, a: string)
    requires Changed(calls, more, r, v, top, w) && a != r && Told(calls, v, a)
    ensures Told(more, w, a)
  {
    hide LatestOf, IndexedOf, EnteredAt, KeepsPlace;
    assert SameTold(calls, more, a);
  }

  lemma InLinePut(calls: seq<Call>, more: seq<Call>, r: string, v: View, top: int, w: View, a: string, b: string)
    requires Changed(calls, more, r, v, top, w) && Numbered(v, top)
    requires Told(calls, v, a) && Told(calls, v, b) && InLine(calls, v, a, b)
    ensures InLine(more, w, a, b)
  {
    hide LatestOf, IndexedOf, EnteredAt;
    assert a != r ==> SameTold(calls, more, a);
    assert b != r ==> SameTold(calls, more, b);
  }

  lemma TellsPut(calls: seq<Call>, more: seq<Call>, r: string, v: View, top: int, w: View)
    requires Tells(calls, v) && Numbered(v, top) && Changed(calls, more, r, v, top, w) && Told(more, w, r)
    ensures Tells(more, w)
  {
    hide Told, InLine, Numbered, Changed;
    forall a ensures Told(more, w, a) {
      if a != r { ToldPut(calls, more, r, v, top, w, a); }
    }
    forall a, b ensures InLine(more, w, a, b) {
      InLinePut(calls, more, r, v, top, w, a, b);
    }
  }

  lemma TellsStep(calls: seq<Call>, s: State, c: Call, t: State)
    requires Tells(calls, s.view) && Numbered(s.view, s.top) && Step(s, c, t)
    ensures Tells(calls + [c], t.view)
  {
    hide LatestOf, IndexedOf, EnteredAt, Numbered, ComesFirst, InLine;
    var more := calls + [c];
    NamedTold(calls, c);
    if c == PopCall(None) {
      forall a ensures SameTold(calls, more, a) { OthersTold(calls, c, a); }
      forall a ensures Told(more, t.view, a) { assert Told(calls, t.view, a) && SameTold(calls, more, a); }
      forall a, b ensures InLine(more, t.view, a, b) { SameLine(calls, more, t.view, a, b); }
    } else {
      var r := if c.PopCall? then c.popped.value else c.repo;
      forall a | a != r ensures SameTold(calls, more, a) { OthersTold(calls, c, a); }
      assert Told(calls, s.view, r);
      assert t.view == s.view[r := t.view[r]];
      TellsPut(calls, more, r, s.view, s.top, t.view);
    }
  }

  lemma SameLine(calls: seq<Call>, more: seq<Call>, v: View, a: string, b: string)
    requires InLine(calls, v, a, b) && SameTold(calls, more, a) && SameTold(calls, more, b)
    ensures InLine(more, v, a, b)
  {
  }

  /** In every run from the empty queue its state is what the calls tell. */
  lemma {:induction false} RunTells(states: seq<State>, calls: seq<Call>)
    requires IsRun(states, calls) && states[0] == State(map[], 0)
    ensures Tells(calls, states[|calls|].view) && Numbered(states[|calls|].view, states[|calls|].top)
  {
    hide Tells, Numbered, Step;
    if calls == [] {
      assert Tells([], map[]) && Numbered(map[], 0) by { NothingTold(); }
    } else {
      var k := |calls| - 1;
      assert IsRun(states[..k + 1], calls[..k]);
      RunTells(states[..k + 1], calls[..k]);
      assert calls == calls[..k] + [calls[k]];
      assert Step(states[k], calls[k], states[k + 1]);
      StepNumbered(states[k], calls[k], states[k + 1]);
      TellsStep(calls[..k], states[k], calls[k], states[k + 1]);
    }
  }

  lemma NothingTold()
    ensures Tells([], map[]) && Numbered(map[], 0)
  {
  }
}
