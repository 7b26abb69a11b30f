/** Runs that attain the bounds: what is proved to be at most so is not always less. */
module Witnesses {
  import opened Callbacks
  import opened System
  import M = Memory
  import L = Ledger

  lemma Next(s0: State, s: State, a: Action) returns (s': State)
    requires Follows(s0, s) && Enabled(s, a)
    ensures s' == Do(s, a) && Follows(s0, s')
  {
    FollowsStep(s0, s, a);
    s' := Do(s, a);
  }

  ghost predicate AtRest(s: State) {
    && s.ledger.updaters == [] && s.ledger.updateCnt == 0 && s.ledger.queue == [] && s.ledger.waiting == []
    && s.mem.hand.Empty? && s.mem.ptr in s.mem.heap
  }

  ghost predicate SameReaders(s: State, s': State) {
    s'.mem.slots == s.mem.slots && s'.mem.readers == s.mem.readers
    && s'.mem.epoch == s.mem.epoch && s'.mem.advances == s.mem.advances
  }

  // ---------------------------------------------------------------------------------------------
  // Batches.

  /** An updater that holds the private copy and is at the given point of its first batch. */
  ghost predicate InFirstBatch(s: State) {
    && |s.ledger.updaters| == 1 && s.ledger.waiting == []
    && s.mem.hand.Copy? && s.mem.hand.obj in s.mem.heap
    && var u := s.ledger.updaters[0];
       u.first && 0 < u.done <= u.count == s.ledger.updateCnt
  }

  ghost predicate AboutToReload(s: State) {
    && InFirstBatch(s) && s.ledger.queue == []
    && s.ledger.updaters[0].phase.Reload? && s.ledger.updaters[0].done == s.ledger.updaters[0].count
  }

  ghost predicate AboutToRead(s: State) {
    && InFirstBatch(s) && |s.ledger.queue| == 1 && s.ledger.queue[0].callback.nested == []
    && s.ledger.updaters[0].phase.Drain? && s.ledger.updaters[0].done + 1 == s.ledger.updaters[0].count
  }

  lemma CallEnqueued(s: State, f: Callback) returns (s': State)
    requires AboutToReload(s)
    ensures Follows(s, s') && s'.mem == s.mem && s'.ledger.threshold == s.ledger.threshold
    ensures s'.ledger.updaters == s.ledger.updaters && s'.ledger.updateCnt == s.ledger.updateCnt + 1
    ensures s'.ledger.waiting == [] && |s'.ledger.queue| == 1 && s'.ledger.queue[0].callback == f
    ensures s'.ledger.published == s.ledger.published && s'.ledger.applied == s.ledger.applied
  {
    hide Reachable, Follows;
    FollowsSelf(s);
    s' := Next(s, s, UpdateStep(L.FetchAdd(f)));
    assert |s'.ledger.waiting| == 1;
    s' := Next(s, s', UpdateStep(L.Enqueue(0)));
  }

  /** Another thread makes one more call, just in time for this batch. */
  lemma CallArrives(s: State, f: Callback) returns (s': State)
    requires AboutToReload(s) && f.nested == []
    requires s.ledger.threshold == 0 || s.ledger.updaters[0].unflushed < s.ledger.threshold
    ensures Follows(s, s') && AboutToRead(s')
    ensures s'.ledger.updaters[0].unflushed == s.ledger.updaters[0].unflushed
    ensures s'.ledger.published == s.ledger.published && s'.ledger.applied == s.ledger.applied
    ensures s'.ledger.threshold == s.ledger.threshold
  {
    hide Reachable, Follows;
    s' := CallEnqueued(s, f);
    s' := Next(s, s', UpdateStep(L.ReloadCount(0)));
  }

  lemma CallServed(s: State) returns (s': State)
    requires AboutToRead(s)
    requires s.ledger.threshold == 0 || s.ledger.updaters[0].unflushed < s.ledger.threshold
    ensures Follows(s, s')
    ensures |s'.ledger.updaters| == 1 && s'.ledger.updaters[0].unflushed == s.ledger.updaters[0].unflushed + 1
    ensures if s'.ledger.updaters[0].unflushed == s.ledger.threshold then Enabled(s', UpdateStep(L.PublishCopy(0)))
            else AboutToReload(s')
    ensures s'.ledger.published == s.ledger.published && |s'.ledger.applied| == |s.ledger.applied| + 1
    ensures s'.ledger.threshold == s.ledger.threshold
  {
    hide Reachable, Follows;
    FollowsSelf(s);
    s' := Next(s, s, UpdateStep(L.Read(0)));
    s' := Next(s, s', UpdateStep(L.Invoke(0)));
  }

  /** A batch grows by `n` more calls, as long as the threshold allows. */
  lemma {:induction false} BatchGrows(s: State, f: Callback, n: nat) returns (s': State)
    requires AboutToRead(s) && f.nested == [] && 0 < n
    requires s.ledger.threshold == 0 || s.ledger.updaters[0].unflushed + n <= s.ledger.threshold
    ensures Follows(s, s')
    ensures |s'.ledger.updaters| == 1 && s'.ledger.updaters[0].unflushed == s.ledger.updaters[0].unflushed + n
    ensures s'.ledger.updaters[0].unflushed == s.ledger.threshold ==> Enabled(s', UpdateStep(L.PublishCopy(0)))
    ensures s'.ledger.published == s.ledger.published && |s'.ledger.applied| == |s.ledger.applied| + n
    decreases n
  {
    hide Reachable, Follows;
    s' := CallServed(s);
    if 1 < n {
      var s1 := s';
      var s2 := CallArrives(s1, f);
      FollowsTransitive(s, s1, s2);
      s' := BatchGrows(s2, f, n - 1);
      FollowsTransitive(s, s2, s');
    }
  }

  /** One thread calls `update` while nobody else does, and its own callback has returned. */
  lemma OwnCallbackRuns(s: State, f: Callback) returns (s': State)
    requires AtRest(s) && f.nested == []
    ensures Follows(s, s') && SameReaders(s, s')
    ensures s'.mem.concurrency == s.mem.concurrency && s'.ledger.threshold == s.ledger.threshold
    ensures s'.ledger.capacity == s.ledger.capacity
    ensures s'.mem.hand.Copy? && s'.mem.hand.obj in s'.mem.heap
    ensures |s'.ledger.updaters| == 1 && s'.ledger.updateCnt == 1
    ensures s'.ledger.queue == [] && s'.ledger.waiting == []
    ensures var u := s'.ledger.updaters[0]; u == L.Updater(u.own, L.Load, 1, 0, 0, true)
    ensures s'.ledger.published == s.ledger.published && |s'.ledger.applied| == |s.ledger.applied| + 1
  {
    hide Reachable, Follows;
    FollowsSelf(s);
    s' := Next(s, s, UpdateStep(L.FetchAdd(f)));
    s' := Next(s, s', UpdateStep(L.GetCopy(0)));
    s' := Next(s, s', UpdateStep(L.Invoke(0)));
  }

  /** A session begins, and a second call is in the queue when the updater looks. */
  lemma SessionBegins(s: State, f: Callback) returns (s': State)
    requires Initial(s) && f.nested == []
    ensures Follows(s, s') && AboutToRead(s') && s'.ledger.updaters[0].unflushed == 0
    ensures s'.ledger.published == 0 && |s'.ledger.applied| == 1 && s'.ledger.threshold == s.ledger.threshold
  {
    hide Reachable, Follows;
    s' := OwnCallbackRuns(s, f);
    s' := Next(s, s', UpdateStep(L.FetchAdd(f)));
    s' := Next(s, s', UpdateStep(L.Enqueue(0)));
    s' := Next(s, s', UpdateStep(L.LoadCount(0)));
  }

  /** The flushing threshold is not the maximal number of updates between two publications: the first
      publication of a session can carry one more, its own. */
  lemma FirstBatchExceedsThreshold(s: State, f: Callback) returns (s': State)
    requires Initial(s) && f.nested == [] && 0 < s.ledger.threshold
    ensures Follows(s, s') && Enabled(s', UpdateStep(L.PublishCopy(0)))
    ensures |s'.ledger.applied| - s'.ledger.published == s.ledger.threshold + 1
  {
    hide Reachable, Follows;
    var s1 := SessionBegins(s, f);
    s' := BatchGrows(s1, f, s.ledger.threshold);
    FollowsTransitive(s, s1, s');
  }

  /** With a flushing threshold of 0 there is no bound at all: readers may have to wait for the updates
      of any number of calls. */
  lemma NoThresholdNoBound(s: State, f: Callback, n: nat) returns (s': State)
    requires Initial(s) && f.nested == [] && s.ledger.threshold == 0
    ensures Follows(s, s') && n < |s'.ledger.applied| - s'.ledger.published
  {
    hide Reachable, Follows;
    var s1 := SessionBegins(s, f);
    s' := BatchGrows(s1, f, n + 1);
    FollowsTransitive(s, s1, s');
  }

  // ---------------------------------------------------------------------------------------------
  // The epoch.

  ghost predicate Alone(s: State, p: L.Phase) {
    && |s.ledger.updaters| == 1 && s.ledger.queue == [] && s.ledger.waiting == []
    && s.mem.concurrency == 1 && 0 < s.ledger.threshold && s.ledger.updateCnt == 1
    && var u := s.ledger.updaters[0]; u.phase == p && u.done == u.count == 1
  }

  lemma ToPublication(s: State, f: Callback) returns (s': State)
    requires AtRest(s) && s.mem.concurrency == 1 && 0 < s.ledger.threshold && f.nested == []
    ensures Follows(s, s') && Alone(s', L.Publish) && SameReaders(s, s') && s'.mem.hand.Copy?
  {
    hide Reachable, Follows;
    s' := OwnCallbackRuns(s, f);
    s' := Next(s, s', UpdateStep(L.LoadCount(0)));
    s' := Next(s, s', UpdateStep(L.ReloadCount(0)));
  }

  /** With one processor every `retire` scans. */
  lemma ToScan(s: State, f: Callback) returns (s': State)
    requires AtRest(s) && s.mem.concurrency == 1 && 0 < s.ledger.threshold && f.nested == []
    ensures Follows(s, s') && Alone(s', L.Retire) && SameReaders(s, s') && s'.mem.hand == M.Scanning(s.mem.slots.Keys)
  {
    hide Reachable, Follows;
    var s1 := ToPublication(s, f);
    s' := Next(s, s1, UpdateStep(L.PublishCopy(0)));
    s' := Next(s, s', RetireStep(0, M.Push));
    s' := Next(s, s', RetireStep(0, M.AccessSlots));
  }

  lemma ToRest(s: State) returns (s': State)
    requires Reachable(s) && Alone(s, L.Retire) && s.mem.hand == M.Scanning({})
    ensures Follows(s, s') && AtRest(s') && s'.mem.concurrency == 1 && 0 < s'.ledger.threshold
    ensures s'.mem.slots == s.mem.slots && s'.mem.readers == s.mem.readers
    ensures s'.mem.epoch == !s.mem.epoch && s'.mem.advances == s.mem.advances + 1
  {
    hide Reachable, Follows;
    FollowsSelf(s);
    s' := Next(s, s, RetireStep(0, M.Reclaim));
    s' := Next(s, s', RetireStep(0, M.Flip));
    s' := Next(s, s', UpdateStep(L.Resign(0)));
    ReachableFollows(s, s');
    ReachableValues(s');
  }

  /** A reader loads the epoch, sleeps through an advance, and stores its label when the next scan has
      just found nobody. */
  lemma StoresLate(s: State, f: Callback, t: M.Tid) returns (s': State)
    requires Initial(s) && s.mem.concurrency == 1 && 0 < s.ledger.threshold && f.nested == []
    ensures Follows(s, s') && Reachable(s') && Alone(s', L.Retire) && s'.mem.hand == M.Scanning({})
    ensures s'.mem.slots == map[] && s'.mem.epoch && s'.mem.ReaderOf(t) == M.Loaded(false)
  {
    hide Reachable, Follows;
    InitialReachable(s);
    FollowsSelf(s);
    var s1 := Next(s, s, ReaderStep(M.LoadEpoch(t)));
    var s2 := ToScan(s1, f);
    FollowsTransitive(s, s1, s2);
    ReachableFollows(s, s2);
    var s3 := ToRest(s2);
    FollowsTransitive(s, s2, s3);
    s' := ToScan(s3, f);
    FollowsTransitive(s, s3, s');
    ReachableFollows(s, s');
  }

  /** The lag of two is attained: the epoch can advance twice between the slot store of a reader and its
      release. */
  lemma EpochLagAttained(s: State, f: Callback, t: M.Tid) returns (before: State, s': State)
    requires Initial(s) && s.mem.concurrency == 1 && 0 < s.ledger.threshold && f.nested == []
    ensures Follows(s, before) && Enabled(before, ReaderStep(M.StoreSlot(t)))
    ensures Follows(Do(before, ReaderStep(M.StoreSlot(t))), s')
    ensures s'.mem.ReaderOf(t).Holding? && s'.mem.advances == before.mem.advances + 2
  {
    hide Reachable, Follows;
    before := StoresLate(s, f, t);
    var stored := Do(before, ReaderStep(M.StoreSlot(t)));
    FollowsSelf(before);
    FollowsStep(before, before, ReaderStep(M.StoreSlot(t)));
    ReachableFollows(before, stored);
    FollowsSelf(stored);
    var s1 := Next(stored, stored, ReaderStep(M.LoadPtr(t)));
    ReachableFollows(stored, s1);
    var s2 := ToRest(s1);
    FollowsTransitive(stored, s1, s2);
    var s3 := ToScan(s2, f);
    FollowsTransitive(stored, s2, s3);
    assert s3.mem.slots.Keys == {t};
    var s4 := Next(stored, s3, RetireStep(0, M.ReadSlot(t)));
    ReachableFollows(stored, s4);
    s' := ToRest(s4);
    FollowsTransitive(stored, s4, s');
  }
}
