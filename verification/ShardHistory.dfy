/** Which shards there are in every state of a run, told from the steps alone (replace, shards/shards.go:357-375). */
module ShardHistory {
  import opened Machine
  import opened ShardedSearcher

  /** replace(key, shard) was called; `brings` is false if the shard is nil. */
  ghost predicate Called(steps: seq<Step>, c: CallId, key: string, brings: bool) {
    ArriveWriter(c, key, brings) in steps
  }

  /** The shard of a key: that of the last replace of the key that has been carried out, if it brought one. */
  ghost function Holder(steps: seq<Step>, key: string): Option<CallId> {
    if steps == [] then None
    else
      var before, last := steps[..|steps| - 1], steps[|steps| - 1];
      if last.Install? && Called(before, last.call, key, true) then Some(last.call)
      else if last.Install? && Called(before, last.call, key, false) then None
      else Holder(before, key)
  }

  /** A replace that has begun takes the place of shard `x`. */
  ghost predicate Displaces(steps: seq<Step>, j: nat, key: string, brings: bool, x: CallId) {
    && j < |steps| && steps[j].CloseOld? && Called(steps[..j], steps[j].call, key, brings) && Holder(steps[..j], key) == Some(x)
  }

  ghost predicate Displaced(steps: seq<Step>, x: CallId) {
    exists j: nat, key, brings :: Displaces(steps, j, key, brings, x)
  }

  // ----- one more step -----

  lemma CalledMore(steps: seq<Step>, step: Step, c: CallId, key: string, brings: bool)
    ensures Called(steps + [step], c, key, brings) <==> Called(steps, c, key, brings) || step == ArriveWriter(c, key, brings)
  {
  }

  lemma HolderMore(steps: seq<Step>, step: Step, key: string)
    ensures Holder(steps + [step], key) ==
            if step.Install? && Called(steps, step.call, key, true) then Some(step.call)
            else if step.Install? && Called(steps, step.call, key, false) then None
            else Holder(steps, key)
  {
    assert (steps + [step])[..|steps|] == steps;
  }

  lemma DisplacedMore(steps: seq<Step>, step: Step, x: CallId)
    ensures Displaced(steps + [step], x) <==>
            Displaced(steps, x) || (step.CloseOld? && exists key, brings :: Called(steps, step.call, key, brings) && Holder(steps, key) == Some(x))
  {
    hide Holder;
    var more := steps + [step];
    assert forall j :: 0 <= j <= |steps| ==> more[..j] == steps[..j];
    assert steps[..|steps|] == steps;
    if Displaced(steps, x) {
      var j: nat, key, brings :| Displaces(steps, j, key, brings, x);
      assert Displaces(more, j, key, brings, x);
    }
    if step.CloseOld? && exists key, brings :: Called(steps, step.call, key, brings) && Holder(steps, key) == Some(x) {
      var key, brings :| Called(steps, step.call, key, brings) && Holder(steps, key) == Some(x);
      assert Displaces(more, |steps|, key, brings, x);
    }
    if Displaced(more, x) {
      var j: nat, key, brings :| Displaces(more, j, key, brings, x);
      assert j < |steps| ==> Displaces(steps, j, key, brings, x);
    }
  }

  // ----- the invariant -----

  /** Who waits or writes has called, and nobody twice. */
  ghost predicate CallsOk(steps: seq<Step>, s: State) {
    && (forall c, key, brings :: Called(steps, c, key, brings) ==> c in s.used)
    && (forall c, key, brings, key', brings' :: Called(steps, c, key, brings) && Called(steps, c, key', brings') ==> key == key' && brings == brings')
    && (forall i :: 0 <= i < |s.waiting| && s.waiting[i].WriteWaiter? ==> Called(steps, s.waiting[i].call, s.waiting[i].key, s.waiting[i].brings))
    && (forall c :: c in s.writing ==> Called(steps, c, s.writing[c].key, s.writing[c].brings))
  }

  ghost predicate HoldsKey(steps: seq<Step>, s: State, key: string) {
    Holder(steps, key) == if key in s.shards then Some(s.shards[key]) else None
  }

  ghost predicate HoldersOk(steps: seq<Step>, s: State) {
    forall key :: HoldsKey(steps, s, key)
  }

  ghost predicate IsClosed(steps: seq<Step>, s: State, x: CallId) {
    x in s.closed <==> Displaced(steps, x)
  }

  ghost predicate ClosedOk(steps: seq<Step>, s: State) {
    && (forall x :: IsClosed(steps, s, x))
    && forall c :: c in s.writing && s.writing[c].closedOld && s.writing[c].key in s.shards ==> s.shards[s.writing[c].key] in s.closed
  }

  ghost predicate Told(steps: seq<Step>, s: State) {
    CallsOk(steps, s) && HoldersOk(steps, s) && ClosedOk(steps, s)
  }

  lemma CallsStep(steps: seq<Step>, s: State, step: Step, t: State)
    requires CallsOk(steps, s) && Next(s, step, t)
    ensures CallsOk(steps + [step], t)
  {
    hide Called, IsSnapshot;
    forall c, key, brings
      ensures Called(steps + [step], c, key, brings) <==> Called(steps, c, key, brings) || step == ArriveWriter(c, key, brings)
    {
      CalledMore(steps, step, c, key, brings);
    }
  }

  lemma HoldersStep(steps: seq<Step>, s: State, step: Step, t: State)
    requires CallsOk(steps, s) && HoldersOk(steps, s) && Next(s, step, t)
    ensures HoldersOk(steps + [step], t)
  {
    hide Called, IsSnapshot, Holder;
    forall key ensures HoldsKey(steps + [step], t, key) {
      HolderMore(steps, step, key);
      assert HoldsKey(steps, s, key);
      if step.Install? {
        var w := s.writing[step.call];
        assert Called(steps, step.call, w.key, w.brings);
      }
    }
  }

  /** Beginning a replace closes what its key holds. */
  lemma ClosingStep(steps: seq<Step>, s: State, c: CallId, t: State, x: CallId)
    requires CallsOk(steps, s) && HoldersOk(steps, s) && ClosedOk(steps, s) && ClosesOld(s, c, t)
    ensures IsClosed(steps + [CloseOld(c)], t, x)
  {
    hide Called, Holder, Displaced;
    var w := s.writing[c];
    DisplacedMore(steps, CloseOld(c), x);
    assert IsClosed(steps, s, x) && HoldsKey(steps, s, w.key);
    assert Called(steps, c, w.key, w.brings);
  }

  lemma ClosedStep(steps: seq<Step>, s: State, step: Step, t: State)
    requires Inv(s) && Told(steps, s) && Next(s, step, t)
    ensures ClosedOk(steps + [step], t)
  {
    hide Inv, IsSnapshot, Displaced, CallsOk, HoldersOk;
    forall x ensures IsClosed(steps + [step], t, x) {
      if step.CloseOld? {
        ClosingStep(steps, s, step.call, t, x);
      } else {
        DisplacedMore(steps, step, x);
        assert IsClosed(steps, s, x);
      }
    }
    forall c | c in t.writing && t.writing[c].closedOld && t.writing[c].key in t.shards
      ensures t.shards[t.writing[c].key] in t.closed
    {
      if step.Install? {
        OnlyWriter(s, step.call, c);
      }
    }
  }

  lemma OnlyWriter(s: State, c: CallId, d: CallId)
    requires Inv(s) && c in s.writing && d in s.writing
    ensures c == d
  {
    OneWriter(s, c, d);
  }

  lemma {:induction false} RunTold(states: seq<State>, steps: seq<Step>, i: nat)
    requires IsRun(states, steps) && i < |states|
    ensures Told(steps[..i], states[i]) && Inv(states[i])
    decreases i
  {
    hide Inv, Next, Told;
    if i == 0 {
      NothingTold(states[0], steps[..0]);
    } else {
      RunTold(states, steps, i - 1);
      assert Next(states[i - 1], steps[i - 1], states[i]);
      assert steps[..i] == steps[..i - 1] + [steps[i - 1]];
      ToldStep(steps[..i - 1], states[i - 1], steps[i - 1], states[i]);
      NextInv(states[i - 1], steps[i - 1], states[i]);
    }
  }

  lemma ToldStep(steps: seq<Step>, s: State, step: Step, t: State)
    requires Inv(s) && Told(steps, s) && Next(s, step, t)
    ensures Told(steps + [step], t)
  {
    hide Inv, Next, CallsOk, HoldersOk, ClosedOk;
    CallsStep(steps, s, step, t);
    HoldersStep(steps, s, step, t);
    ClosedStep(steps, s, step, t);
  }

  lemma NothingTold(s: State, steps: seq<Step>)
    requires Init(s) && steps == []
    ensures Told(steps, s) && Inv(s)
  {
    InitInv(s);
  }

  // ----- what the searcher has -----

  /** In every state of every run a key has the shard of the last replace of it, and what was displaced is closed, and nothing else. */
  lemma ShardsAreTold(states: seq<State>, steps: seq<Step>, i: nat)
    requires IsRun(states, steps) && i < |states|
    ensures forall key :: Holder(steps[..i], key) == if key in states[i].shards then Some(states[i].shards[key]) else None
    ensures forall x :: x in states[i].closed <==> Displaced(steps[..i], x)
  {
    hide Inv, Displaced, Holder, CallsOk;
    RunTold(states, steps, i);
    forall key ensures Holder(steps[..i], key) == if key in states[i].shards then Some(states[i].shards[key]) else None {
      assert HoldsKey(steps[..i], states[i], key);
    }
    forall x ensures x in states[i].closed <==> Displaced(steps[..i], x) {
      assert IsClosed(steps[..i], states[i], x);
    }
  }

  /** When a replace is carried out, the shard whose place it takes is closed. */
  lemma ReplacedIsClosed(states: seq<State>, steps: seq<Step>, i: nat, c: CallId, key: string, brings: bool, x: CallId)
    requires IsRun(states, steps) && i < |steps| && steps[i] == Install(c)
    requires Called(steps[..i], c, key, brings) && Holder(steps[..i], key) == Some(x)
    ensures x in states[i].closed && x in states[i + 1].closed
    ensures Holder(steps[..i + 1], key) == if brings then Some(c) else None
  {
    hide Inv, Displaced, Holder;
    RunTold(states, steps, i);
    var s := states[i];
    assert Next(s, steps[i], states[i + 1]);
    assert HoldsKey(steps[..i], s, key);
    assert Called(steps[..i], c, s.writing[c].key, s.writing[c].brings);
    assert steps[..i + 1] == steps[..i] + [steps[i]];
    HolderMore(steps[..i], steps[i], key);
  }

  // ----- a search after a replace -----

  /** The call is over: it neither waits nor reads. */
  ghost predicate Over(s: State, d: CallId) {
    d in s.used && d !in s.reading && forall i :: 0 <= i < |s.waiting| ==> s.waiting[i].call != d
  }

  /** From its fan-out on a call has its snapshot, and shards stay as they are, until it is over. */
  ghost predicate Fixed(s: State, d: CallId, order: seq<CallId>) {
    (Collects(s, d) && s.reading[d].snapshot == order) || Over(s, d)
  }

  lemma FixedStep(s: State, step: Step, t: State, d: CallId, order: seq<CallId>)
    requires Inv(s) && Next(s, step, t) && Fixed(s, d, order)
    ensures Fixed(t, d, order)
  {
    hide LockInv, ShardInv, ReaderInv, IsSnapshot;
    if Over(s, d) {
      OverStep(s, step, t, d);
    } else if step.Return? && step.call == d {
      ReadersDoNotWait(s, d);
    } else if step.Grant? {
      HeadPending(s);
    }
  }

  lemma ReadersDoNotWait(s: State, d: CallId)
    requires IdInv(s) && d in s.reading
    ensures d in s.used && forall i :: 0 <= i < |s.waiting| ==> s.waiting[i].call != d
  {
  }

  lemma OverStep(s: State, step: Step, t: State, d: CallId)
    requires Next(s, step, t) && Over(s, d)
    ensures Over(t, d)
  {
    hide IsSnapshot;
  }

  lemma {:induction false} FixedUntil(states: seq<State>, steps: seq<Step>, j: nat, k: nat, d: CallId, order: seq<CallId>)
    requires IsRun(states, steps) && j <= k < |states| && Fixed(states[j], d, order)
    ensures Fixed(states[k], d, order)
    decreases k
  {
    hide Inv, Next, Fixed;
    if j < k {
      FixedUntil(states, steps, j, k - 1, d, order);
      RunInv(states, steps, k - 1);
      assert Next(states[k - 1], steps[k - 1], states[k]);
      FixedStep(states[k - 1], steps[k - 1], states[k], d, order);
    }
  }

  /** No replace of the key is carried out from step `i` to before step `j`. */
  ghost predicate Untouched(steps: seq<Step>, i: nat, j: nat, key: string) {
    i <= j <= |steps| && forall m :: i <= m < j && steps[m].Install? ==> forall brings :: !Called(steps[..m], steps[m].call, key, brings)
  }

  lemma {:induction false} StillHeld(steps: seq<Step>, i: nat, j: nat, key: string)
    requires Untouched(steps, i, j, key)
    ensures Holder(steps[..j], key) == Holder(steps[..i], key)
    decreases j
  {
    hide Holder, Called;
    if i < j {
      StillHeld(steps, i, j - 1, key);
      assert steps[..j] == steps[..j - 1] + [steps[j - 1]];
      HolderMore(steps[..j - 1], steps[j - 1], key);
    }
  }

  /**
   * A Search or List that fans out after a shard was installed, and before the key is replaced again, returns with
   * exactly one result from that shard.
   */
  lemma SearchSeesReplace(states: seq<State>, steps: seq<Step>, i: nat, j: nat, k: nat, c: CallId, key: string, d: CallId)
    requires IsRun(states, steps) && i < j < k < |steps|
    requires steps[i] == Install(c) && Called(steps[..i], c, key, true) && Untouched(steps, i + 1, j, key)
    requires (steps[j].FanOut? || steps[j].FanOutList?) && steps[j].call == d && steps[k] == Return(d)
    ensures Collects(states[k], d) && Names(states[k].reading[d].received)[c] == 1
  {
    hide Inv, Holder, Accounted, Names, Fixed;
    assert steps[..i + 1] == steps[..i] + [steps[i]];
    HolderMore(steps[..i], steps[i], key);
    StillHeld(steps, i + 1, j, key);
    ShardsAreTold(states, steps, j);
    assert Holder(steps[..j], key) == Some(c);
    assert Next(states[j], steps[j], states[j + 1]);
    var order := steps[j].order;
    assert c in order;
    JustFannedOut(states[j], steps[j], states[j + 1]);
    FixedUntil(states, steps, j + 1, k, d, order);
    assert Next(states[k], steps[k], states[k + 1]);
    ReturnsSnapshot(states, steps, k, d, order, c);
  }

  lemma JustFannedOut(s: State, step: Step, t: State)
    requires Next(s, step, t) && (step.FanOut? || step.FanOutList?)
    ensures Fixed(t, step.call, step.order) && forall x, y :: 0 <= x < y < |step.order| ==> step.order[x] != step.order[y]
  {
  }

  lemma ReturnsSnapshot(states: seq<State>, steps: seq<Step>, k: nat, d: CallId, order: seq<CallId>, c: CallId)
    requires IsRun(states, steps) && k < |steps| && steps[k] == Return(d) && Next(states[k], steps[k], states[k + 1])
    requires Fixed(states[k], d, order) && c in order && forall x, y :: 0 <= x < y < |order| ==> order[x] != order[y]
    ensures Collects(states[k], d) && Names(states[k].reading[d].received)[c] == 1
  {
    hide Inv, Accounted, Names, IsSnapshot;
    RunInv(states, steps, k);
    ReaderFacts(states[k], d);
    AllCollected(states[k].reading[d]);
    OnceOnly(order, c);
  }

  // ----- the order of the shards -----

  /** What is left to be taken is the end of the snapshot. */
  ghost predicate FeedsRest(s: State, c: CallId) {
    Collects(s, c) ==> var r := s.reading[c]; |r.feeder| <= |r.snapshot| && r.feeder == r.snapshot[|r.snapshot| - |r.feeder|..]
  }

  lemma FeedsTake(s: State, d: CallId, w: nat, t: State, c: CallId)
    requires Takes(s, d, w, t) && FeedsRest(s, c)
    ensures FeedsRest(t, c)
  {
    if d == c {
      var r := s.reading[c];
      assert r.feeder[1..] == r.snapshot[|r.snapshot| - |r.feeder| + 1..];
    }
  }

  lemma FeedsStep(s: State, step: Step, t: State, c: CallId)
    requires Next(s, step, t) && FeedsRest(s, c)
    ensures FeedsRest(t, c)
  {
    hide IsSnapshot;
    if step.Take? {
      FeedsTake(s, step.call, step.w, t, c);
    }
  }

  lemma {:induction false} AlwaysFeedsRest(states: seq<State>, steps: seq<Step>, i: nat, c: CallId)
    requires IsRun(states, steps) && i < |states|
    ensures FeedsRest(states[i], c)
    decreases i
  {
    hide Next, FeedsRest;
    if i == 0 {
      assert FeedsRest(states[0], c) by { NobodyReads(states[0], c); }
    } else {
      AlwaysFeedsRest(states, steps, i - 1, c);
      assert Next(states[i - 1], steps[i - 1], states[i]);
      FeedsStep(states[i - 1], steps[i - 1], states[i], c);
    }
  }

  lemma NobodyReads(s: State, c: CallId)
    requires Init(s)
    ensures FeedsRest(s, c)
  {
  }

  /** Shards are taken by decreasing rank: a worker takes one that no shard left to its call is above. */
  lemma TakenByRank(states: seq<State>, steps: seq<Step>, i: nat, c: CallId, w: nat, y: CallId)
    requires IsRun(states, steps) && i < |steps| && steps[i] == Take(c, w)
    requires Collects(states[i], c) && y in states[i].reading[c].feeder
    ensures Collects(states[i + 1], c) && w < |states[i + 1].reading[c].workers| && states[i + 1].reading[c].workers[w].Running?
    ensures var x := states[i + 1].reading[c].workers[w].shard;
            x in states[i].reading[c].feeder && states[i].ranks(x) >= states[i].ranks(y)
  {
    hide Inv, Accounted;
    RunInv(states, steps, i);
    AlwaysFeedsRest(states, steps, i, c);
    var s := states[i];
    assert Next(s, steps[i], states[i + 1]);
    ReaderFacts(s, c);
    var r := s.reading[c];
    var k := |r.snapshot| - |r.feeder|;
    var j :| 0 <= j < |r.feeder| && r.feeder[j] == y;
    assert r.feeder[0] == r.snapshot[k] && r.feeder[j] == r.snapshot[k + j];
  }
}
