/** Searching many shards while they are replaced (shards/shards.go), as a state machine over its steps. */
module ShardedSearcher {
  import opened Machine

  /** A running Search, List or replace. A shard is named after the replace call that brings it. */
  type CallId = nat

  /** What waits for the semaphore: a Search or List for weight 1, a replace for the whole capacity. */
  datatype Waiter = ReadWaiter(call: CallId) | WriteWaiter(call: CallId, key: string, brings: bool)

  /** A goroutine that searches or lists shards. */
  datatype Worker = Idle | Running(shard: CallId) | Exited

  /** What a shard sends to the collector; a shard that panics sends a result too. */
  datatype ShardResult = ShardResult(shard: CallId, crashed: bool)

  /** A Search or List that holds the read lock. `results` is the channel `all`, `feeder` the channel of shards. */
  datatype Reader =
    | Locked
    | Collecting(snapshot: seq<CallId>, feeder: seq<CallId>, workers: seq<Worker>, results: seq<ShardResult>,
                 received: seq<ShardResult>)

  /** A replace that holds the write lock. */
  datatype Writer = Writer(key: string, brings: bool, closedOld: bool)

  datatype State = State(
    capacity: int,
    free: int,
    waiting: seq<Waiter>,
    reading: map<CallId, Reader>,
    writing: map<CallId, Writer>,
    shards: map<string, CallId>,
    ranks: CallId -> int,
    closed: set<CallId>,
    used: set<CallId>)

  ghost predicate Init(s: State) {
    && s.capacity >= 1 && s.free == s.capacity
    && s.waiting == [] && s.reading == map[] && s.writing == map[] && s.shards == map[] && s.closed == {} && s.used == {}
  }

  // ----- steps -----

  datatype Step =
    | ArriveReader(call: CallId)
    | ArriveWriter(call: CallId, key: string, brings: bool)
    | GiveUp(i: nat)
    | Grant
    | FanOut(call: CallId, order: seq<CallId>, workers: nat)
    | FanOutList(call: CallId, order: seq<CallId>)
    | Take(call: CallId, w: nat)
    | Exit(call: CallId, w: nat)
    | Finish(call: CallId, w: nat, crashed: bool)
    | Receive(call: CallId)
    | Return(call: CallId)
    | CloseOld(call: CallId)
    | Install(call: CallId)

  /** Acquire is called: the call queues up. */
  ghost predicate Arrives(s: State, c: CallId, w: Waiter, t: State) {
    c !in s.used && t == s.(waiting := s.waiting + [w], used := s.used + {c})
  }

  /** The context of a waiting reader is cancelled, so Acquire fails. A replace has no such context. */
  ghost predicate GivesUp(s: State, i: nat, t: State) {
    i < |s.waiting| && s.waiting[i].ReadWaiter? && t == s.(waiting := s.waiting[..i] + s.waiting[i + 1..])
  }

  function Weight(s: State, w: Waiter): int {
    if w.ReadWaiter? then 1 else s.capacity
  }

  /** The semaphore serves its queue in order. */
  ghost predicate Grants(s: State, t: State) {
    && s.waiting != [] && Weight(s, s.waiting[0]) <= s.free
    && var w := s.waiting[0];
       var s' := s.(free := s.free - Weight(s, w), waiting := s.waiting[1..]);
       match w
       case ReadWaiter(c) => t == s'.(reading := s.reading[c := Locked])
       case WriteWaiter(c, key, brings) => t == s'.(writing := s.writing[c := Writer(key, brings, false)])
  }

  /** getShards: all shards, once each, by decreasing rank. */
  ghost predicate IsSnapshot(s: State, order: seq<CallId>) {
    && (forall c :: c in order <==> c in s.shards.Values)
    && (forall i, j :: 0 <= i < j < |order| ==> order[i] != order[j])
    && (forall i, j :: 0 <= i < j < |order| ==> s.ranks(order[i]) >= s.ranks(order[j]))
  }

  ghost predicate FansOut(s: State, c: CallId, order: seq<CallId>, feeder: seq<CallId>, workers: seq<Worker>, t: State) {
    && c in s.reading && s.reading[c].Locked? && IsSnapshot(s, order)
    && t == s.(reading := s.reading[c := Collecting(order, feeder, workers, [], [])])
  }

  ghost predicate Collects(s: State, c: CallId) {
    c in s.reading && s.reading[c].Collecting?
  }

  function SetReader(s: State, c: CallId, r: Reader): State {
    s.(reading := s.reading[c := r])
  }

  ghost predicate Takes(s: State, c: CallId, w: nat, t: State) {
    Collects(s, c) && var r := s.reading[c];
    && w < |r.workers| && r.workers[w].Idle? && r.feeder != []
    && t == SetReader(s, c, r.(feeder := r.feeder[1..], workers := r.workers[w := Running(r.feeder[0])]))
  }

  /** The feeder is closed, so a worker that finds it empty ends. */
  ghost predicate Exits(s: State, c: CallId, w: nat, t: State) {
    Collects(s, c) && var r := s.reading[c];
    && w < |r.workers| && r.workers[w].Idle? && r.feeder == []
    && t == SetReader(s, c, r.(workers := r.workers[w := Exited]))
  }

  /** The shard answers, or panics and is recovered; the channel has room for one result per shard. */
  ghost predicate Finishes(s: State, c: CallId, w: nat, crashed: bool, t: State) {
    Collects(s, c) && var r := s.reading[c];
    && w < |r.workers| && r.workers[w].Running? && |r.results| < |r.snapshot|
    && t == SetReader(s, c, r.(workers := r.workers[w := Idle],
                               results := r.results + [ShardResult(r.workers[w].shard, crashed)]))
  }

  ghost predicate Receives(s: State, c: CallId, t: State) {
    Collects(s, c) && var r := s.reading[c];
    && |r.received| < |r.snapshot| && r.results != []
    && t == SetReader(s, c, r.(results := r.results[1..], received := r.received + [r.results[0]]))
  }

  /** One result per shard has come in: the call returns and releases its lock. */
  ghost predicate Returns(s: State, c: CallId, t: State) {
    Collects(s, c) && var r := s.reading[c];
    && |r.received| == |r.snapshot|
    && t == s.(reading := s.reading - {c}, free := s.free + 1)
  }

  ghost predicate ClosesOld(s: State, c: CallId, t: State) {
    c in s.writing && var w := s.writing[c];
    && !w.closedOld
    && t == s.(writing := s.writing[c := w.(closedOld := true)],
               closed := if w.key in s.shards then s.closed + {s.shards[w.key]} else s.closed)
  }

  /** The new shard is ranked and installed, or the key deleted; the write lock is released. */
  ghost predicate Installs(s: State, c: CallId, t: State) {
    c in s.writing && var w := s.writing[c];
    && w.closedOld
    && t == s.(writing := s.writing - {c}, free := s.free + s.capacity,
               shards := if w.brings then s.shards[w.key := c] else s.shards - {w.key})
  }

  ghost predicate Next(s: State, step: Step, t: State) {
    match step
    case ArriveReader(c) => Arrives(s, c, ReadWaiter(c), t)
    case ArriveWriter(c, key, brings) => Arrives(s, c, WriteWaiter(c, key, brings), t)
    case GiveUp(i) => GivesUp(s, i, t)
    case Grant => Grants(s, t)
    case FanOut(c, order, n) => n >= 1 && FansOut(s, c, order, order, seq(n, i => Idle), t)
    case FanOutList(c, order) => FansOut(s, c, order, [], seq(|order|, i requires 0 <= i < |order| => Running(order[i])), t)
    case Take(c, w) => Takes(s, c, w, t)
    case Exit(c, w) => Exits(s, c, w, t)
    case Finish(c, w, crashed) => Finishes(s, c, w, crashed, t)
    case Receive(c) => Receives(s, c, t)
    case Return(c) => Returns(s, c, t)
    case CloseOld(c) => ClosesOld(s, c, t)
    case Install(c) => Installs(s, c, t)
  }

  // ----- what one call keeps -----

  function ShardOf(w: Worker): multiset<CallId> {
    if w.Running? then multiset{w.shard} else multiset{}
  }

  /** The shards that are being searched. */
  function Busy(ws: seq<Worker>): multiset<CallId> {
    if ws == [] then multiset{} else ShardOf(ws[0]) + Busy(ws[1..])
  }

  function Names(rs: seq<ShardResult>): (m: multiset<CallId>)
    ensures |m| == |rs|
  {
    if rs == [] then multiset{} else multiset{rs[0].shard} + Names(rs[1..])
  }

  lemma NothingAdded(m: multiset<CallId>)
    ensures m + multiset{} == m
  {
  }

  lemma {:induction false} BusyUpdateAt(ws: seq<Worker>, i: nat, w: Worker, c: CallId)
    requires i < |ws|
    ensures Busy(ws[i := w])[c] + ShardOf(ws[i])[c] == Busy(ws)[c] + ShardOf(w)[c]
  {
    hide ShardOf;
    if i == 0 {
      assert ws[0 := w][1..] == ws[1..];
    } else {
      BusyUpdateAt(ws[1..], i - 1, w, c);
      assert ws[i := w][1..] == ws[1..][i - 1 := w];
    }
  }

  lemma BusyUpdate(ws: seq<Worker>, i: nat, w: Worker)
    requires i < |ws|
    ensures Busy(ws[i := w]) + ShardOf(ws[i]) == Busy(ws) + ShardOf(w)
  {
    hide Busy, ShardOf;
    forall c ensures (Busy(ws[i := w]) + ShardOf(ws[i]))[c] == (Busy(ws) + ShardOf(w))[c] {
      BusyUpdateAt(ws, i, w, c);
    }
  }

  lemma {:induction false} BusyIdle(ws: seq<Worker>)
    requires forall i :: 0 <= i < |ws| ==> !ws[i].Running?
    ensures Busy(ws) == multiset{}
  {
    if ws != [] {
      BusyIdle(ws[1..]);
    }
  }

  lemma {:induction false} BusyAll(ws: seq<Worker>, order: seq<CallId>)
    requires |ws| == |order| && forall i :: 0 <= i < |ws| ==> ws[i] == Running(order[i])
    ensures Busy(ws) == multiset(order)
  {
    if ws != [] {
      BusyAll(ws[1..], order[1..]);
      assert order == [order[0]] + order[1..];
    }
  }

  lemma {:induction false} BusyMember(ws: seq<Worker>, i: nat)
    requires i < |ws| && ws[i].Running?
    ensures ws[i].shard in Busy(ws)
  {
    if i > 0 {
      BusyMember(ws[1..], i - 1);
    }
  }

  lemma {:induction false} NamesAppend(rs: seq<ShardResult>, r: ShardResult)
    ensures Names(rs + [r]) == Names(rs) + multiset{r.shard}
  {
    if rs == [] {
      assert rs + [r] == [r] && [r][1..] == [];
    } else {
      NamesAppend(rs[1..], r);
      assert (rs + [r])[1..] == rs[1..] + [r];
    }
  }

  /** Every snapshotted shard is in exactly one place: in the feeder, at a worker, in the channel, or collected. */
  ghost predicate Accounted(r: Reader) {
    r.Collecting? ==>
      && Names(r.received) + Names(r.results) + Busy(r.workers) + multiset(r.feeder) == multiset(r.snapshot)
      && (r.feeder != [] ==> r.workers != [] && forall i :: 0 <= i < |r.workers| ==> !r.workers[i].Exited?)
  }

  /** Moving one shard from one place to the next. */
  lemma Regroup(a: multiset<CallId>, b: multiset<CallId>, x: multiset<CallId>, c: multiset<CallId>)
    ensures a + b + (x + c) == a + (b + x) + c
  {
  }

  lemma AccountedTake(r: Reader, w: nat)
    requires r.Collecting? && Accounted(r) && w < |r.workers| && r.workers[w].Idle? && r.feeder != []
    ensures Accounted(r.(feeder := r.feeder[1..], workers := r.workers[w := Running(r.feeder[0])]))
  {
    hide Busy, Names;
    var x, ws := r.feeder[0], r.workers[w := Running(r.feeder[0])];
    BusyUpdate(r.workers, w, Running(x));
    assert r.feeder == [x] + r.feeder[1..];
    assert Busy(ws) == Busy(r.workers) + multiset{x};
    assert multiset(r.feeder) == multiset{x} + multiset(r.feeder[1..]);
    Regroup(Names(r.received) + Names(r.results), Busy(r.workers), multiset{x}, multiset(r.feeder[1..]));
  }

  lemma AccountedExit(r: Reader, w: nat)
    requires r.Collecting? && Accounted(r) && w < |r.workers| && r.workers[w].Idle? && r.feeder == []
    ensures Accounted(r.(workers := r.workers[w := Exited]))
  {
    hide Busy, Names;
    BusyUpdate(r.workers, w, Exited);
    NothingAdded(Busy(r.workers));
    NothingAdded(Busy(r.workers[w := Exited]));
  }

  lemma AccountedFinish(r: Reader, w: nat, crashed: bool)
    requires r.Collecting? && Accounted(r) && w < |r.workers| && r.workers[w].Running?
    ensures Accounted(r.(workers := r.workers[w := Idle], results := r.results + [ShardResult(r.workers[w].shard, crashed)]))
  {
    hide Busy, Names;
    var x := r.workers[w].shard;
    BusyUpdate(r.workers, w, Idle);
    NothingAdded(Busy(r.workers));
    assert Busy(r.workers) == multiset{x} + Busy(r.workers[w := Idle]);
    Regroup(Names(r.received), Names(r.results), multiset{x}, Busy(r.workers[w := Idle]));
    NamesAppend(r.results, ShardResult(r.workers[w].shard, crashed));
  }

  lemma AccountedReceive(r: Reader)
    requires r.Collecting? && Accounted(r) && r.results != []
    ensures Accounted(r.(results := r.results[1..], received := r.received + [r.results[0]]))
  {
    var x := r.results[0].shard;
    NamesAppend(r.received, r.results[0]);
    assert Names(r.results) == multiset{x} + Names(r.results[1..]);
    Regroup(multiset{}, Names(r.received), multiset{x}, Names(r.results[1..]));
  }

  /** When as many results have come in as there are shards, each shard has sent exactly one, and no worker has a shard. */
  lemma AllCollected(r: Reader)
    requires r.Collecting? && Accounted(r) && |r.received| == |r.snapshot|
    ensures Names(r.received) == multiset(r.snapshot)
    ensures r.results == [] && r.feeder == [] && forall i :: 0 <= i < |r.workers| ==> !r.workers[i].Running?
  {
    var rest := Names(r.results) + Busy(r.workers) + multiset(r.feeder);
    assert Names(r.received) + rest == multiset(r.snapshot);
    assert |multiset(r.snapshot)| == |Names(r.received)| + |rest|;
    assert rest == multiset{};
    assert |rest| == |Names(r.results)| + |Busy(r.workers)| + |multiset(r.feeder)|;
    forall i | 0 <= i < |r.workers| ensures !r.workers[i].Running? {
      if r.workers[i].Running? {
        BusyMember(r.workers, i);
      }
    }
  }

  // ----- what all calls keep together -----

  /** The semaphore: readers share it, a writer has it alone. */
  ghost predicate LockInv(s: State) {
    && s.capacity >= 1 && s.free >= 0
    && if s.writing == map[] then s.free == s.capacity - |s.reading| else |s.writing| == 1 && s.reading == map[] && s.free == 0
  }

  ghost predicate IdInv(s: State) {
    && (forall i, j :: 0 <= i < j < |s.waiting| ==> s.waiting[i].call != s.waiting[j].call)
    && (forall i :: 0 <= i < |s.waiting| ==> Pending(s, s.waiting[i].call))
    && (forall c :: c in s.reading ==> c in s.used)
    && (forall c :: c in s.writing ==> c in s.used)
  }

  ghost predicate Pending(s: State, c: CallId) {
    c in s.used && c !in s.reading && c !in s.writing && Unborn(s, c)
  }

  /** The shard that the call brings is not installed yet. */
  ghost predicate Unborn(s: State, c: CallId) {
    c !in s.closed && forall k :: k in s.shards ==> s.shards[k] != c
  }

  ghost predicate Replacing(s: State, k: string) {
    exists c :: c in s.writing && s.writing[c].closedOld && s.writing[c].key == k
  }

  ghost predicate ShardInv(s: State) {
    && (forall k :: k in s.shards ==> s.shards[k] in s.used)
    && s.closed <= s.used
    && (forall k, l :: k in s.shards && l in s.shards && k != l ==> s.shards[k] != s.shards[l])
    && (forall c :: c in s.writing ==> Unborn(s, c))
    && (forall k :: k in s.shards && s.shards[k] in s.closed ==> Replacing(s, k))
  }

  /** What a reader has taken a snapshot of is still what there is. */
  ghost predicate ReaderOk(s: State, r: Reader) {
    Accounted(r) && (r.Collecting? ==> IsSnapshot(s, r.snapshot))
  }

  ghost predicate ReaderInv(s: State) {
    forall c :: c in s.reading ==> ReaderOk(s, s.reading[c])
  }

  ghost predicate Inv(s: State) {
    LockInv(s) && IdInv(s) && ShardInv(s) && ReaderInv(s)
  }

  lemma InitInv(s: State)
    requires Init(s)
    ensures Inv(s)
  {
  }

  lemma MapSizes<V>(m: map<CallId, V>, c: CallId, v: V)
    ensures |m[c := v]| == if c in m then |m| else |m| + 1
    ensures |m - {c}| == if c in m then |m| - 1 else |m|
  {
    assert m[c := v].Keys == m.Keys + {c};
    assert (m - {c}).Keys == m.Keys - {c};
    assert |m[c := v]| == |m[c := v].Keys| && |m - {c}| == |(m - {c}).Keys| && |m| == |m.Keys|;
  }

  /** One reader moves on, under the lock it has. */
  lemma ReaderMoves(s: State, c: CallId, r: Reader)
    requires Inv(s) && c in s.reading && ReaderOk(s, r)
    ensures Inv(SetReader(s, c, r))
  {
    hide ReaderOk, ShardInv;
    MapSizes(s.reading, c, r);
    var t := SetReader(s, c, r);
    ShardsSame(s, t);
    assert forall i :: 0 <= i < |s.waiting| ==> Pending(s, s.waiting[i].call);
    assert forall x :: Unborn(s, x) == Unborn(t, x);
  }

  lemma ReaderStep(s: State, step: Step, t: State)
    requires Inv(s) && Next(s, step, t) && (step.Take? || step.Exit? || step.Finish? || step.Receive?)
    ensures Inv(t)
  {
    hide Accounted, LockInv, IdInv, ShardInv;
    var r := s.reading[step.call];
    assert ReaderOk(s, r);
    match step {
      case Take(c, w) => AccountedTake(r, w);
      case Exit(c, w) => AccountedExit(r, w);
      case Finish(c, w, crashed) => AccountedFinish(r, w, crashed);
      case Receive(c) => AccountedReceive(r);
    }
    ReaderMoves(s, step.call, t.reading[step.call]);
  }

  lemma FanOutStep(s: State, step: Step, t: State)
    requires Inv(s) && Next(s, step, t) && (step.FanOut? || step.FanOutList?)
    ensures Inv(t)
  {
    hide LockInv, IdInv, ShardInv;
    var r := t.reading[step.call];
    if step.FanOut? {
      BusyIdle(r.workers);
    } else {
      BusyAll(r.workers, r.snapshot);
    }
    assert Accounted(r);
    ReaderMoves(s, step.call, r);
  }

  /** Steps that leave shards and writers alone. */
  lemma ShardsSame(s: State, t: State)
    requires ShardInv(s) && t.shards == s.shards && t.closed == s.closed && s.used <= t.used && t.writing == s.writing && t.ranks == s.ranks
    ensures ShardInv(t) && forall r :: ReaderOk(s, r) == ReaderOk(t, r)
  {
    hide Accounted;
    assert forall order :: IsSnapshot(s, order) == IsSnapshot(t, order);
    assert forall x :: Unborn(s, x) == Unborn(t, x);
    assert forall k :: Replacing(s, k) == Replacing(t, k);
  }

  lemma NewUnborn(s: State)
    requires ShardInv(s)
    ensures forall c :: c !in s.used ==> Unborn(s, c)
  {
  }

  lemma QueueStep(s: State, step: Step, t: State)
    requires Inv(s) && Next(s, step, t) && (step.ArriveReader? || step.ArriveWriter? || step.GiveUp?)
    ensures Inv(t)
  {
    hide ShardInv, ReaderOk;
    ShardsSame(s, t);
    NewUnborn(s);
    assert forall x :: Unborn(s, x) == Unborn(t, x);
    assert forall c :: Pending(s, c) ==> Pending(t, c);
  }

  /** All of the weight is free only when nobody reads or writes. */
  lemma Alone(s: State)
    requires LockInv(s) && s.free >= s.capacity
    ensures s.reading == map[] && s.writing == map[]
  {
    assert |s.reading| == |s.reading.Keys|;
    assert s.reading.Keys == {};
  }

  /** The rest of the queue, after its head has been served. */
  lemma QueueRest(s: State, t: State)
    requires IdInv(s) && s.waiting != [] && t.waiting == s.waiting[1..] && t.used == s.used
    requires t.closed == s.closed && t.shards == s.shards
    requires forall c :: (c in t.reading || c in t.writing) ==> c in s.reading || c in s.writing || c == s.waiting[0].call
    ensures IdInv(t) && forall x :: Unborn(s, x) == Unborn(t, x)
  {
    assert Pending(s, s.waiting[0].call);
    forall i | 0 <= i < |t.waiting| ensures Pending(t, t.waiting[i].call) {
      assert Pending(s, s.waiting[i + 1].call) && s.waiting[0].call != s.waiting[i + 1].call;
    }
  }

  lemma GrantRead(s: State, t: State)
    requires Inv(s) && Grants(s, t) && s.waiting[0].ReadWaiter?
    ensures Inv(t)
  {
    hide Accounted, IdInv, ShardInv, ReaderOk;
    var c := s.waiting[0].call;
    assert Pending(s, c) by { HeadPending(s); }
    MapSizes(s.reading, c, Locked);
    QueueRest(s, t);
    ShardsSame(s, t);
    LockedOk(t);
  }

  lemma LockedOk(t: State)
    ensures ReaderOk(t, Locked)
  {
  }

  lemma HeadPending(s: State)
    requires IdInv(s) && s.waiting != []
    ensures Pending(s, s.waiting[0].call)
  {
  }

  lemma GrantWrite(s: State, t: State)
    requires Inv(s) && Grants(s, t) && s.waiting[0].WriteWaiter?
    ensures Inv(t)
  {
    hide Accounted, IdInv;
    var c := s.waiting[0].call;
    HeadPending(s);
    Alone(s);
    MapSizes(s.writing, c, t.writing[c]);
    QueueRest(s, t);
    assert forall k :: !Replacing(s, k);
  }

  lemma ReturnStep(s: State, c: CallId, t: State)
    requires Inv(s) && Returns(s, c, t)
    ensures Inv(t)
  {
    hide Accounted;
    MapSizes(s.reading, c, Locked);
    assert forall order :: IsSnapshot(s, order) == IsSnapshot(t, order);
    assert forall x :: Unborn(s, x) == Unborn(t, x);
    assert forall k :: Replacing(s, k) == Replacing(t, k);
    assert forall d :: Pending(s, d) ==> Pending(t, d);
  }

  lemma OneWriter(s: State, c: CallId, d: CallId)
    requires LockInv(s) && c in s.writing && d in s.writing
    ensures c == d && s.reading == map[]
  {
    if c != d {
      assert {c, d} <= s.writing.Keys;
      Larger({c, d}, s.writing.Keys);
    }
  }

  lemma Larger(a: set<CallId>, b: set<CallId>)
    requires a <= b
    ensures |a| <= |b|
  {
    assert b == a + (b - a);
  }

  lemma CloseStep(s: State, c: CallId, t: State)
    requires Inv(s) && ClosesOld(s, c, t)
    ensures Inv(t)
  {
    hide Accounted;
    var w := s.writing[c];
    OneWriter(s, c, c);
    MapSizes(s.writing, c, w);
    MapSizes(s.writing, c, w.(closedOld := true));
    assert Unborn(s, c);
    forall d | Pending(s, d) ensures Pending(t, d) {}
    assert t.writing[c].closedOld && Replacing(t, w.key);
    forall d | d in s.writing ensures d == c {
      OneWriter(s, c, d);
    }
  }

  lemma InstallStep(s: State, c: CallId, t: State)
    requires Inv(s) && Installs(s, c, t)
    ensures Inv(t)
  {
    hide Accounted;
    var w := s.writing[c];
    MapSizes(s.writing, c, w);
    OneWriter(s, c, c);
    assert Unborn(s, c);
    forall d | d in s.writing ensures d == c {
      OneWriter(s, c, d);
    }
    assert t.writing == map[];
    assert t.reading == map[];
    forall k | k in t.shards ensures t.shards[k] !in t.closed && t.shards[k] in t.used {
      assert k != w.key ==> !Replacing(s, k);
    }
    forall d | Pending(s, d) ensures Pending(t, d) {}
  }

  /** Every step keeps the invariant. */
  lemma NextInv(s: State, step: Step, t: State)
    requires Inv(s) && Next(s, step, t)
    ensures Inv(t)
  {
    hide Inv;
    match step
    case Grant => if s.waiting[0].ReadWaiter? { GrantRead(s, t); } else { GrantWrite(s, t); }
    case Return(c) => ReturnStep(s, c, t);
    case CloseOld(c) => CloseStep(s, c, t);
    case Install(c) => InstallStep(s, c, t);
    case FanOut(_, _, _) => FanOutStep(s, step, t);
    case FanOutList(_, _) => FanOutStep(s, step, t);
    case ArriveReader(_) => QueueStep(s, step, t);
    case ArriveWriter(_, _, _) => QueueStep(s, step, t);
    case GiveUp(_) => QueueStep(s, step, t);
    case _ => ReaderStep(s, step, t);
  }

  // ----- every run -----

  ghost predicate IsRun(states: seq<State>, steps: seq<Step>) {
    && |states| == |steps| + 1 && Init(states[0])
    && forall i :: 0 <= i < |steps| ==> Next(states[i], steps[i], states[i + 1])
  }

  lemma {:induction false} RunInv(states: seq<State>, steps: seq<Step>, i: nat)
    requires IsRun(states, steps) && i < |states|
    ensures Inv(states[i])
    decreases i
  {
    hide Inv, Next, Init;
    if i == 0 {
      InitInv(states[0]);
    } else {
      RunInv(states, steps, i - 1);
      assert Next(states[i - 1], steps[i - 1], states[i]);
      NextInv(states[i - 1], steps[i - 1], states[i]);
    }
  }

  /** A goroutine of some call is searching or listing the shard. */
  ghost predicate InUse(s: State, x: CallId) {
    exists c, w :: Collects(s, c) && 0 <= w < |s.reading[c].workers| && s.reading[c].workers[w] == Running(x)
  }

  lemma UsedIsOpen(s: State, c: CallId, w: nat)
    requires Inv(s) && Collects(s, c) && w < |s.reading[c].workers| && s.reading[c].workers[w].Running?
    ensures s.reading[c].workers[w].shard !in s.closed
  {
    var r := s.reading[c];
    var x := r.workers[w].shard;
    assert ReaderOk(s, r);
    BusyMember(r.workers, w);
    assert x in multiset(r.snapshot);
    assert x in r.snapshot && x in s.shards.Values;
    assert s.writing == map[];
  }

  /** No shard is closed while a goroutine of a Search or List uses it, in any state of any run. */
  lemma NeverClosedInUse(states: seq<State>, steps: seq<Step>, i: nat, x: CallId)
    requires IsRun(states, steps) && i < |states| && InUse(states[i], x)
    ensures x !in states[i].closed
  {
    hide Inv, IsRun;
    RunInv(states, steps, i);
    var s := states[i];
    var c, w :| Collects(s, c) && 0 <= w < |s.reading[c].workers| && s.reading[c].workers[w] == Running(x);
    UsedIsOpen(s, c, w);
  }

  /** A call that returns has one result from each shard there is, none twice, and leaves no goroutine with a shard. */
  lemma ReturnsComplete(states: seq<State>, steps: seq<Step>, i: nat, c: CallId)
    requires IsRun(states, steps) && i < |steps| && steps[i] == Return(c)
    ensures Collects(states[i], c)
    ensures var r := states[i].reading[c];
            && (forall w :: 0 <= w < |r.workers| ==> !r.workers[w].Running?)
            && (forall x :: x in states[i].shards.Values ==> Names(r.received)[x] == 1)
            && (forall x :: x in Names(r.received) ==> x in states[i].shards.Values)
  {
    hide Inv, Init;
    RunInv(states, steps, i);
    var s := states[i];
    assert Next(s, steps[i], states[i + 1]);
    var r := s.reading[c];
    ReaderFacts(s, c);
    AllCollected(r);
    forall x | x in s.shards.Values ensures Names(r.received)[x] == 1 {
      OnceOnly(r.snapshot, x);
    }
  }

  lemma ReaderFacts(s: State, c: CallId)
    requires Inv(s) && c in s.reading
    ensures ReaderOk(s, s.reading[c])
  {
  }

  lemma {:induction false} OnceOnly(order: seq<CallId>, x: CallId)
    requires x in order && forall i, j :: 0 <= i < j < |order| ==> order[i] != order[j]
    ensures multiset(order)[x] == 1
  {
    var k :| 0 <= k < |order| && order[k] == x;
    assert order == order[..k] + [x] + order[k + 1..];
    assert x !in order[..k] && x !in order[k + 1..];
    assert multiset(order) == multiset(order[..k]) + multiset{x} + multiset(order[k + 1..]);
  }

  // ----- no deadlock -----

  predicate IsInternal(step: Step) {
    !step.ArriveReader? && !step.ArriveWriter? && !step.GiveUp?
  }

  /** Some call has not returned yet. */
  predicate Outstanding(s: State) {
    s.waiting != [] || s.reading != map[] || s.writing != map[]
  }

  ghost predicate CanStep(s: State) {
    exists step, t :: IsInternal(step) && Next(s, step, t)
  }

  lemma StepShows(s: State, step: Step, t: State)
    requires IsInternal(step) && Next(s, step, t)
    ensures CanStep(s)
  {
  }

  lemma CollectorCanStep(s: State, c: CallId)
    requires Collects(s, c) && Accounted(s.reading[c])
    ensures CanStep(s)
  {
    hide CanStep, Accounted, Busy, Names, IsSnapshot;
    var r := s.reading[c];
    Counted(r);
    if |r.received| == |r.snapshot| {
      StepShows(s, Return(c), s.(reading := s.reading - {c}, free := s.free + 1));
    } else if r.results != [] {
      StepShows(s, Receive(c), SetReader(s, c, r.(results := r.results[1..], received := r.received + [r.results[0]])));
    } else if w :| 0 <= w < |r.workers| && r.workers[w].Running? {
      StepShows(s, Finish(c, w, false), SetReader(s, c, r.(workers := r.workers[w := Idle],
                results := r.results + [ShardResult(r.workers[w].shard, false)])));
    } else {
      BusyIdle(r.workers);
      FeederWaits(r);
      StepShows(s, Take(c, 0), SetReader(s, c, r.(feeder := r.feeder[1..], workers := r.workers[0 := Running(r.feeder[0])])));
    }
  }

  lemma FeederWaits(r: Reader)
    requires r.Collecting? && Accounted(r) && r.feeder != [] && forall w :: 0 <= w < |r.workers| ==> !r.workers[w].Running?
    ensures r.workers != [] && r.workers[0].Idle?
  {
  }

  lemma Counted(r: Reader)
    requires r.Collecting? && Accounted(r)
    ensures |r.received| + |r.results| + |Busy(r.workers)| + |r.feeder| == |r.snapshot|
  {
    assert |multiset(r.snapshot)| == |Names(r.received)| + |Names(r.results)| + |Busy(r.workers)| + |multiset(r.feeder)|;
  }

  lemma WriterCanStep(s: State, c: CallId)
    requires c in s.writing
    ensures CanStep(s)
  {
    var w := s.writing[c];
    if w.closedOld {
      var t := s.(writing := s.writing - {c}, free := s.free + s.capacity,
                  shards := if w.brings then s.shards[w.key := c] else s.shards - {w.key});
      assert Next(s, Install(c), t);
    } else {
      var t := s.(writing := s.writing[c := w.(closedOld := true)],
                  closed := if w.key in s.shards then s.closed + {s.shards[w.key]} else s.closed);
      assert Next(s, CloseOld(c), t);
    }
  }

  /** getShards always has an answer. */
  lemma {:induction false} ByRank(xs: set<CallId>, ranks: CallId -> int) returns (order: seq<CallId>)
    ensures forall c :: c in order <==> c in xs
    ensures forall i, j :: 0 <= i < j < |order| ==> order[i] != order[j]
    ensures forall i, j :: 0 <= i < j < |order| ==> ranks(order[i]) >= ranks(order[j])
    decreases xs
  {
    if xs == {} {
      order := [];
    } else {
      var low := Lowest(xs, ranks);
      var rest := ByRank(xs - {low}, ranks);
      assert forall i :: 0 <= i < |rest| ==> rest[i] in rest;
      order := rest + [low];
    }
  }

  lemma {:induction false} Lowest(xs: set<CallId>, ranks: CallId -> int) returns (low: CallId)
    requires xs != {}
    ensures low in xs && forall x :: x in xs ==> ranks(low) <= ranks(x)
    decreases xs
  {
    low :| low in xs;
    if xs != {low} {
      var other := Lowest(xs - {low}, ranks);
      low := if ranks(other) < ranks(low) then other else low;
    }
  }

  lemma LockedCanStep(s: State, c: CallId)
    requires c in s.reading && s.reading[c].Locked?
    ensures CanStep(s)
  {
    var order := ByRank(s.shards.Values, s.ranks);
    assert IsSnapshot(s, order);
    var workers := seq(1, i => Idle);
    assert Next(s, FanOut(c, order, 1), s.(reading := s.reading[c := Collecting(order, order, workers, [], [])]));
  }

  lemma GrantCanStep(s: State)
    requires LockInv(s) && s.waiting != [] && s.reading == map[] && s.writing == map[]
    ensures CanStep(s)
  {
    var w := s.waiting[0];
    var s' := s.(free := s.free - Weight(s, w), waiting := s.waiting[1..]);
    var t := match w
      case ReadWaiter(c) => s'.(reading := s.reading[c := Locked])
      case WriteWaiter(c, key, brings) => s'.(writing := s.writing[c := Writer(key, brings, false)]);
    assert Next(s, Grant, t);
  }

  /** While a call is outstanding, some goroutine of the searcher can take a step, in any state of any run. */
  lemma NeverStuck(states: seq<State>, steps: seq<Step>, i: nat)
    requires IsRun(states, steps) && i < |states| && Outstanding(states[i])
    ensures CanStep(states[i])
  {
    hide IsRun, CanStep;
    var s := states[i];
    RunInv(states, steps, i);
    if s.writing != map[] {
      var c :| c in s.writing;
      WriterCanStep(s, c);
    } else if s.reading != map[] {
      var c :| c in s.reading;
      ReaderFacts(s, c);
      if s.reading[c].Locked? {
        LockedCanStep(s, c);
      } else {
        CollectorCanStep(s, c);
      }
    } else {
      GrantCanStep(s);
    }
  }

  // ----- progress -----

  function Idles(ws: seq<Worker>): nat {
    if ws == [] then 0 else (if ws[0].Idle? then 1 else 0) + Idles(ws[1..])
  }

  lemma {:induction false} IdlesUpdate(ws: seq<Worker>, i: nat, w: Worker)
    requires i < |ws|
    ensures Idles(ws[i := w]) + (if ws[i].Idle? then 1 else 0) == Idles(ws) + if w.Idle? then 1 else 0
  {
    if i == 0 {
      assert ws[0 := w][1..] == ws[1..];
    } else {
      IdlesUpdate(ws[1..], i - 1, w);
      assert ws[i := w][1..] == ws[1..][i - 1 := w];
    }
  }

  /** What a collecting call has left to do. */
  function Work(r: Reader): nat
    requires r.Collecting?
  {
    4 * |r.feeder| + 4 * |Busy(r.workers)| + 2 * |r.results| + Idles(r.workers)
  }

  /** Each step of a collecting call takes away from its own work, until it returns, and from no other call's. */
  lemma Progress(s: State, step: Step, t: State, c: CallId)
    requires Inv(s) && Next(s, step, t) && Collects(s, c) && c in t.reading
    ensures Collects(t, c)
    ensures if (step.Take? || step.Exit? || step.Finish? || step.Receive?) && step.call == c
            then Work(t.reading[c]) < Work(s.reading[c]) else t.reading[c] == s.reading[c]
  {
    hide Busy, Names, Accounted, Idles, Inv, Work;
    if (step.Take? || step.Exit? || step.Finish?) && step.call == c {
      WorkerProgress(s, step, t, c);
    } else if step.Receive? && step.call == c {
      ReceiveProgress(s, step, t, c);
    } else if step.Grant? {
      IdsOk(s);
      HeadPending(s);
    }
  }

  lemma IdsOk(s: State)
    requires Inv(s)
    ensures IdInv(s)
  {
    hide IdInv, ShardInv, ReaderInv, LockInv;
  }

  lemma ReceiveProgress(s: State, step: Step, t: State, c: CallId)
    requires step.Receive? && step.call == c && Next(s, step, t) && Collects(s, c) && c in t.reading
    ensures Collects(t, c) && Work(t.reading[c]) < Work(s.reading[c])
  {
    hide Busy, Names, Accounted, Idles;
  }

  lemma WorkerProgress(s: State, step: Step, t: State, c: CallId)
    requires (step.Take? || step.Exit? || step.Finish?) && step.call == c && Next(s, step, t) && Collects(s, c) && c in t.reading
    ensures Collects(t, c) && Work(t.reading[c]) < Work(s.reading[c])
  {
    hide Busy, Names, Accounted, Idles;
    var r := s.reading[c];
    match step
    case Take(_, w) =>
      BusyUpdate(r.workers, w, Running(r.feeder[0]));
      IdlesUpdate(r.workers, w, Running(r.feeder[0]));
      Sizes(Busy(t.reading[c].workers), multiset{}, Busy(r.workers), multiset{r.feeder[0]});
    case Exit(_, w) =>
      BusyUpdate(r.workers, w, Exited);
      IdlesUpdate(r.workers, w, Exited);
      Sizes(Busy(t.reading[c].workers), multiset{}, Busy(r.workers), multiset{});
    case Finish(_, w, crashed) =>
      BusyUpdate(r.workers, w, Idle);
      IdlesUpdate(r.workers, w, Idle);
      Sizes(Busy(t.reading[c].workers), multiset{r.workers[w].shard}, Busy(r.workers), multiset{});
  }

  lemma Sizes(a: multiset<CallId>, x: multiset<CallId>, b: multiset<CallId>, y: multiset<CallId>)
    requires a + x == b + y
    ensures |a| + |x| == |b| + |y|
  {
    assert |a + x| == |a| + |x| && |b + y| == |b| + |y|;
  }
}
