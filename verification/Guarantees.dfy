/** What `rcu_protected<T>` guarantees in every reachable state and over every run: the safety half. */
module Guarantees {
  import opened Callbacks
  import opened System
  import M = Memory
  import L = Ledger

  // ---------------------------------------------------------------------------------------------
  // Readers.

  /** Grace period: whatever label its slot may have got, the object a reader holds is neither deleted
      nor in the pool nor the updater's private copy. */
  lemma GracePeriod(s: State, t: M.Tid)
    requires Reachable(s) && s.mem.ReaderOf(t).Holding?
    ensures var p := s.mem.ReaderOf(t).obj;
      && p in s.mem.heap && p !in s.mem.freed
      && p !in s.mem.finished
      && s.mem.hand != M.Copy(p)
  {
    ReachableMem(s);
    M.HeldIsSafe(s.mem, t);
  }

  lemma StepGrows(s: State, a: Action)
    requires L.Inv(s.ledger) && Enabled(s, a)
    ensures L.Grown(s.ledger, Do(s, a).ledger)
  {
    if a.UpdateStep? {
      L.Grows(s.ledger, a.u);
    }
  }

  /** Nothing that has been applied, registered, lined up or published is ever taken back. */
  lemma {:induction false} RunGrows(s: State, actions: seq<Action>)
    requires Reachable(s) && Run(s, actions)
    ensures L.Grown(s.ledger, After(s, actions).ledger)
  {
    if actions != [] {
      var front := actions[..|actions| - 1];
      var middle := After(s, front);
      RunGrows(s, front);
      ReachableAfter(s, front);
      ReachableLedger(middle);
      StepGrows(middle, actions[|actions| - 1]);
      L.GrownTransitive(s.ledger, middle.ledger, After(s, actions).ledger);
    }
  }

  lemma StepKeepsInitial(s: State, a: Action)
    requires Enabled(s, a)
    ensures Do(s, a).mem.initial == s.mem.initial && s.mem.advances <= Do(s, a).mem.advances
  {
    StepFrame(s, a);
  }

  lemma {:induction false} InitialStays(s: State, actions: seq<Action>)
    requires Run(s, actions)
    ensures After(s, actions).mem.initial == s.mem.initial
    ensures s.mem.advances <= After(s, actions).mem.advances
  {
    if actions != [] {
      InitialStays(s, actions[..|actions| - 1]);
      StepKeepsInitial(After(s, actions[..|actions| - 1]), actions[|actions| - 1]);
    }
  }

  lemma ReadKeepsReader(m: M.Mem, r: M.ReaderAction, t: M.Tid)
    requires M.ReaderEnabled(m, r) && m.ReaderOf(t).Locked() && r != M.Release(t)
    ensures SameLock(m.ReaderOf(t), M.ReaderDo(m, r).ReaderOf(t))
  {
  }

  /** The same label since the same moment, and the same pointer if there was one. */
  predicate SameLock(r: M.Reader, r': M.Reader) {
    && r.Locked() && r'.Locked() && r'.stamp == r.stamp && r'.since == r.since && r'.late == r.late
    && (r.Holding? ==> r' == r)
  }

  lemma StepKeepsReader(s: State, a: Action, t: M.Tid)
    requires Enabled(s, a) && s.mem.ReaderOf(t).Locked() && a != ReaderStep(M.Release(t))
    ensures SameLock(s.mem.ReaderOf(t), Do(s, a).mem.ReaderOf(t))
  {
    if a.ReaderStep? {
      ReadKeepsReader(s.mem, a.r, t);
    } else {
      StepFrame(s, a);
    }
  }

  /** Until its release a reader keeps its label, and the pointer once it has one. */
  lemma {:induction false} ReaderStays(s: State, actions: seq<Action>, t: M.Tid)
    requires Run(s, actions) && s.mem.ReaderOf(t).Locked() && ReaderStep(M.Release(t)) !in actions
    ensures SameLock(s.mem.ReaderOf(t), After(s, actions).mem.ReaderOf(t))
  {
    if actions != [] {
      var front := actions[..|actions| - 1];
      ReaderStays(s, front, t);
      assert actions[|actions| - 1] in actions;
      StepKeepsReader(After(s, front), actions[|actions| - 1], t);
    }
  }

  /** What a reader reads: the initial value after a prefix of the applied callbacks. */
  lemma ReadsSnapshot(s: State, t: M.Tid)
    requires Reachable(s) && s.mem.ReaderOf(t).Holding?
    ensures var r := s.mem.ReaderOf(t);
      && r.seen <= s.ledger.published <= |s.ledger.applied|
      && r.obj in s.mem.heap
      && s.mem.heap[r.obj] == RunAll(s.mem.initial, Effects(s.ledger.applied[..r.seen]))
  {
    var r := s.mem.ReaderOf(t);
    ReachableMem(s);
    ReachableJoined(s);
    assert M.Snapshot(s.mem, r);
    assert s.mem.log[..r.seen] == Effects(s.ledger.applied[..r.seen]);
  }

  /** Snapshot: from the pointer load to the release, through any number of steps of all threads, the
      object behind a held pointer has one value, that of one prefix of the applied callbacks, although
      pooled objects are overwritten in place. */
  lemma SnapshotIsStable(s: State, actions: seq<Action>, t: M.Tid)
    requires Reachable(s) && Run(s, actions)
    requires s.mem.ReaderOf(t).Holding? && ReaderStep(M.Release(t)) !in actions
    ensures var r := s.mem.ReaderOf(t);
      var s' := After(s, actions);
      && s'.mem.ReaderOf(t) == r
      && r.seen <= |s.ledger.applied|
      && r.obj in s.mem.heap && r.obj in s'.mem.heap
      && s'.mem.heap[r.obj] == s.mem.heap[r.obj]
      && s.mem.heap[r.obj] == RunAll(s.mem.initial, Effects(s.ledger.applied[..r.seen]))
  {
    var r := s.mem.ReaderOf(t);
    var s' := After(s, actions);
    ReaderStays(s, actions, t);
    RunGrows(s, actions);
    InitialStays(s, actions);
    ReachableAfter(s, actions);
    ReadsSnapshot(s, t);
    ReadsSnapshot(s', t);
    assert s'.ledger.applied[..r.seen] == s.ledger.applied[..r.seen];
  }

  /** The prefix a reader gets is the one of the last publication before its pointer load. */
  lemma LoadsLastPublication(s: State, t: M.Tid)
    requires Reachable(s) && Enabled(s, ReaderStep(M.LoadPtr(t)))
    ensures var r := Do(s, ReaderStep(M.LoadPtr(t))).mem.ReaderOf(t);
      r.Holding? && r.obj == s.mem.ptr && r.seen == s.ledger.published
  {
    ReachableJoined(s);
  }

  lemma ReadSeesAtLeast(m: M.Mem, r: M.ReaderAction, t: M.Tid, n: nat)
    requires M.ReaderEnabled(m, r) && n <= m.published
    requires m.ReaderOf(t).Holding? ==> n <= m.ReaderOf(t).seen
    ensures M.ReaderDo(m, r).ReaderOf(t).Holding? ==> n <= M.ReaderDo(m, r).ReaderOf(t).seen
  {
  }

  lemma StepSeesAtLeast(s: State, a: Action, t: M.Tid, n: nat)
    requires Joined(s) && Enabled(s, a) && n <= s.ledger.published
    requires s.mem.ReaderOf(t).Holding? ==> n <= s.mem.ReaderOf(t).seen
    ensures Do(s, a).mem.ReaderOf(t).Holding? ==> n <= Do(s, a).mem.ReaderOf(t).seen
  {
    if a.ReaderStep? {
      ReadSeesAtLeast(s.mem, a.r, t, n);
    } else {
      StepFrame(s, a);
    }
  }

  lemma {:induction false} SeesAtLeast(s: State, actions: seq<Action>, t: M.Tid)
    requires Reachable(s) && Run(s, actions) && !s.mem.ReaderOf(t).Holding?
    ensures var r := After(s, actions).mem.ReaderOf(t); r.Holding? ==> s.ledger.published <= r.seen
  {
    if actions != [] {
      var front := actions[..|actions| - 1];
      SeesAtLeast(s, front, t);
      RunGrows(s, front);
      ReachableAfter(s, front);
      ReachableJoined(After(s, front));
      StepSeesAtLeast(After(s, front), actions[|actions| - 1], t, s.ledger.published);
    }
  }

  /** Monotone reads: if one `get_ptr` has returned in `s` and another one, on any thread, begins in a
      later state, then the second sees what the first saw and possibly more. */
  lemma ReadsAreMonotone(s: State, t: M.Tid, between: seq<Action>, u: M.Tid, after: seq<Action>)
    requires Reachable(s) && s.mem.ReaderOf(t).Holding?
    requires Run(s, between) && After(s, between).mem.ReaderOf(u).Out?
    requires Run(After(s, between), after) && After(After(s, between), after).mem.ReaderOf(u).Holding?
    ensures var first := s.mem.ReaderOf(t).seen;
      var s' := After(After(s, between), after);
      var second := s'.mem.ReaderOf(u).seen;
      && first <= |s.ledger.applied| && second <= |s'.ledger.applied|
      && L.Prefix(s.ledger.applied[..first], s'.ledger.applied[..second])
  {
    var middle := After(s, between);
    var s' := After(middle, after);
    ReachableAfter(s, between);
    ReachableAfter(middle, after);
    RunGrows(s, between);
    RunGrows(middle, after);
    L.GrownTransitive(s.ledger, middle.ledger, s'.ledger);
    SeesAtLeast(middle, after, u);
    ReadsSnapshot(s, t);
    ReadsSnapshot(s', u);
  }

  /** What the slots show: bit 0 is set exactly while the thread is between its slot store and its
      release, and then bit 1 is the epoch it loaded. */
  lemma SlotLayout(s: State, t: M.Tid)
    requires Reachable(s)
    ensures t in s.mem.slots ==> (s.mem.slots[t] % 2 == 1 <==> s.mem.ReaderOf(t).Locked())
    ensures s.mem.ReaderOf(t).Locked() ==>
      t in s.mem.slots && s.mem.slots[t] < 4 && (s.mem.slots[t] / 2 == 1 <==> s.mem.ReaderOf(t).stamp)
    ensures t in s.mem.slots && !s.mem.ReaderOf(t).Locked() ==> s.mem.slots[t] == 0
  {
    ReachableSlots(s);
  }

  lemma LagBound(s: State, t: M.Tid)
    requires Reachable(s) && s.mem.ReaderOf(t).Locked()
    ensures M.LagOk(s.mem, t)
  {
    ReachableMem(s);
  }

  lemma AfterOne(s: State, a: Action)
    requires Reachable(s) && Enabled(s, a)
    ensures Reachable(Do(s, a))
  {
    OneStep(s, a);
    ReachableAfter(s, [a]);
  }

  /** Epoch lag: from its slot store to its release a reader sees the epoch advance at most twice, and
      twice only if it stored a label that a scan under way was looking for and had already passed. */
  lemma EpochLag(s: State, t: M.Tid, actions: seq<Action>)
    requires Reachable(s) && Enabled(s, ReaderStep(M.StoreSlot(t)))
    requires Run(Do(s, ReaderStep(M.StoreSlot(t))), actions) && ReaderStep(M.Release(t)) !in actions
    ensures var flips := After(Do(s, ReaderStep(M.StoreSlot(t))), actions).mem.advances - s.mem.advances;
      && 0 <= flips <= 2
      && (flips == 2 ==> M.Passed(s.mem, t) && s.mem.ReaderOf(t).stamp != s.mem.epoch)
  {
    var stored := Do(s, ReaderStep(M.StoreSlot(t)));
    AfterOne(s, ReaderStep(M.StoreSlot(t)));
    ReachableAfter(stored, actions);
    ReaderStays(stored, actions, t);
    InitialStays(stored, actions);
    LagBound(After(stored, actions), t);
  }

  // ---------------------------------------------------------------------------------------------
  // Updates.

  /** Single updater: the counter is positive exactly when a thread is between its election and its
      resignation, and never are there two. */
  lemma SingleUpdater(s: State)
    requires Reachable(s)
    ensures |s.ledger.updaters| <= 1
    ensures s.ledger.updateCnt > 0 <==> |s.ledger.updaters| == 1
    ensures s.ledger.updaters == [] ==> s.mem.hand.Empty?
  {
    ReachableJoined(s);
  }

  /** Only the updater touches the retire lists, the pool and the heap. */
  lemma ListsArePrivate(s: State, a: Action)
    requires Reachable(s) && Enabled(s, a)
    requires Do(s, a).mem.lists != s.mem.lists || Do(s, a).mem.finished != s.mem.finished || Do(s, a).mem.heap != s.mem.heap
    ensures |s.ledger.updaters| == 1
    ensures a.RetireStep? || (a.UpdateStep? && (a.u.GetCopy? || a.u.Invoke?))
  {
    hide Reachable;
    SingleUpdater(s);
    if a.ReaderStep? {
      M.ReaderFrame(s.mem, a.r);
    }
  }

  /** Resignation loses nothing: the exchange of the counter for 0 succeeds exactly when every call
      registered so far has been applied, and then everything is published, the queue is empty, and no
      thread is between its `fetch_add` and its `blockingWrite`. */
  lemma ResignationLosesNothing(s: State, k: nat)
    requires Reachable(s) && Enabled(s, UpdateStep(L.Resign(k)))
    ensures Do(s, UpdateStep(L.Resign(k))).ledger.updateCnt == 0
       <==> multiset(s.ledger.applied) == multiset(s.ledger.registered)
    ensures Do(s, UpdateStep(L.Resign(k))).ledger.updateCnt == 0 ==>
      && s.ledger.queue == [] && s.ledger.waiting == []
      && s.ledger.published == |s.ledger.applied| == |s.ledger.registered|
  {
    ReachableLedger(s);
    L.ResignOutcome(s.ledger);
  }

  /** Exactly once: no call is applied twice, only calls made are applied, and a call that returned is
      applied, or is going to be: it is in the queue or in the updater's hand. */
  lemma AppliedOnce(s: State)
    requires Reachable(s)
    ensures forall i, j :: 0 <= i < j < |s.ledger.applied| ==> s.ledger.applied[i] != s.ledger.applied[j]
    ensures multiset(s.ledger.applied) <= multiset(s.ledger.registered)
    ensures forall c :: c in s.ledger.returned ==> c in L.Line(s.ledger)
  {
    ReachableLedger(s);
    forall i, j | 0 <= i < j < |s.ledger.applied| ensures s.ledger.applied[i] != s.ledger.applied[j] {
      L.AppliedDistinct(s.ledger, i, j);
    }
  }

  /** Real-time order: if the call `c` had returned in `s` and the call at position `j` was made after
      `s`, then `c` is applied before it, however and in whichever session the two were served. */
  lemma RealTimeOrder(s: State, c: Call, actions: seq<Action>, j: nat) returns (i: nat)
    requires Reachable(s) && c in s.ledger.returned && Run(s, actions)
    requires j < |After(s, actions).ledger.applied|
    requires |s.ledger.registered| <= After(s, actions).ledger.applied[j].ticket
    ensures i < j && After(s, actions).ledger.applied[i] == c
  {
    RunGrows(s, actions);
    ReachableLedger(s);
    i := L.LinedUpFirst(s.ledger, After(s, actions).ledger, c, j);
  }

  lemma PublishedValue(s: State)
    requires Reachable(s)
    ensures s.mem.ptr in s.mem.heap && s.ledger.published <= |s.ledger.applied|
    ensures s.mem.heap[s.mem.ptr] == RunAll(s.mem.initial, Effects(s.ledger.applied[..s.ledger.published]))
  {
    ReachableMem(s);
    ReachableJoined(s);
    assert s.mem.log[..s.mem.published] == Effects(s.ledger.applied[..s.ledger.published]);
  }

  /** Quiescence: whenever the counter is 0, the published object is what running all registered calls
      one by one on a single object gives, in the order in which they were applied. */
  lemma QuiescentValue(s: State)
    requires Reachable(s) && s.ledger.updateCnt == 0
    ensures multiset(s.ledger.applied) == multiset(s.ledger.registered)
    ensures s.mem.ptr in s.mem.heap
    ensures s.mem.heap[s.mem.ptr] == RunAll(s.mem.initial, Effects(s.ledger.applied))
  {
    ReachableLedger(s);
    L.Settled(s.ledger);
    PublishedValue(s);
    assert s.ledger.applied[..|s.ledger.applied|] == s.ledger.applied;
  }

  /** Batches: a publication adds at least one callback, and more than the flushing threshold exactly if
      it is the first of its session and a full threshold of queued callbacks came on top of the
      elected call's own. */
  lemma BatchBounds(s: State, k: nat)
    requires Reachable(s) && Enabled(s, UpdateStep(L.PublishCopy(k)))
    ensures var batch := |s.ledger.applied| - s.ledger.published;
      var u := s.ledger.updaters[k];
      && 1 <= batch
      && (s.ledger.threshold > 0 ==> batch <= s.ledger.threshold + 1)
      && (s.ledger.threshold > 0 ==> (batch > s.ledger.threshold <==> u.first && u.unflushed == s.ledger.threshold))
  {
    ReachableLedger(s);
  }

  /** A step that only an updater takes. */
  predicate OfUpdater(a: Action) {
    a.RetireStep? || (a.UpdateStep? && !a.u.FetchAdd? && !a.u.Enqueue?)
  }

  /** The look of line 186 finds nothing more exactly if everything registered is applied. */
  lemma LookFindsAll(l: L.State)
    requires L.SingleUpdater(l) && L.Conserved(l) && L.Count(l) && L.Enabled(l, L.ReloadCount(0))
    ensures L.Do(l, L.ReloadCount(0)).updaters[0].phase.Publish? && l.updaters[0].done == l.updateCnt
       <==> multiset(l.applied) == multiset(l.registered)
  {
    L.Sizes(l);
    assert |multiset(l.applied)| == |l.applied| && |multiset(l.registered)| == |l.registered|;
    if l.updaters[0].done == l.updateCnt {
      assert L.Line(l) == l.applied && L.Outside(l) == [];
    }
  }

  /** A full batch is published without another look, also one of threshold 0. */
  lemma NoLookWhenFull(s: State, k: nat)
    requires Reachable(s) && Enabled(s, UpdateStep(L.ReloadCount(k)))
    ensures s.ledger.updaters[k].unflushed != s.ledger.threshold
    ensures s.ledger.threshold > 0 ==> s.ledger.updaters[k].unflushed < s.ledger.threshold
  {
    ReachableLedger(s);
  }

  lemma LedgerComesToPublish(l: L.State, a: L.Action)
    requires L.SingleUpdater(l) && L.Updating(l) && L.Enabled(l, a) && !a.FetchAdd? && !a.Enqueue?
    requires var l' := L.Do(l, a);
      l'.updaters != [] && l'.updaters[0].phase.Publish? && l'.updaters[0].unflushed != l.threshold
    ensures a == L.ReloadCount(0) && l.updaters[0].done == l.updateCnt
  {
    assert |l.updaters| == 1;
  }

  lemma PublishesInPhase(s: State)
    requires Reachable(s) && Enabled(s, UpdateStep(L.PublishCopy(0)))
    ensures |s.ledger.updaters| == 1 && s.ledger.updaters[0].phase.Publish?
  {
    ReachableJoined(s);
  }

  /** How an updater comes to publish: its batch is full, or it looked at the counter once more and found
      nothing it had not applied. */
  lemma ComesToPublish(s: State, a: Action)
    requires Reachable(s) && Enabled(s, a)
    requires var l' := Do(s, a).ledger;
      |l'.updaters| == 1 && l'.updaters[0].phase.Publish? && l'.updaters[0].unflushed != l'.threshold
    ensures Do(s, a).ledger.threshold == s.ledger.threshold && Do(s, a).ledger.applied == s.ledger.applied
    ensures if OfUpdater(a) then
              && a == UpdateStep(L.ReloadCount(0))
              && multiset(s.ledger.applied) == multiset(s.ledger.registered)
            else
              s.ledger.updaters == Do(s, a).ledger.updaters && Enabled(s, UpdateStep(L.PublishCopy(0)))
  {
    hide Reachable;
    ReachableJoined(s);
    if a.UpdateStep? && OfUpdater(a) {
      LedgerComesToPublish(s.ledger, a.u);
      ReachableLedger(s);
      LookFindsAll(s.ledger);
    }
  }

  /** Complete batches: an updater publishes less than a full batch only if its last step was to look at
      the counter again (line 186) at a moment when every call registered so far had been applied. A call
      that comes before this look is therefore part of the publication. */
  lemma {:induction false} LastLook(s: State, actions: seq<Action>) returns (i: nat)
    requires Reachable(s) && !Enabled(s, UpdateStep(L.PublishCopy(0)))
    requires Run(s, actions) && Enabled(After(s, actions), UpdateStep(L.PublishCopy(0)))
    requires After(s, actions).ledger.updaters[0].unflushed != After(s, actions).ledger.threshold
    ensures i < |actions| && actions[i] == UpdateStep(L.ReloadCount(0)) && Run(s, actions[..i])
    ensures forall j :: i < j < |actions| ==> !OfUpdater(actions[j])
    ensures var look := After(s, actions[..i]).ledger;
      && multiset(look.applied) == multiset(look.registered)
      && After(s, actions).ledger.applied == look.applied
  {
    hide Reachable, Enabled, Do, L.Enabled, L.Do;
    if actions != [] {
      var front, a := actions[..|actions| - 1], actions[|actions| - 1];
      var middle := After(s, front);
      ReachableAfter(s, front);
      AfterOne(middle, a);
      PublishesInPhase(Do(middle, a));
      ComesToPublish(middle, a);
      if OfUpdater(a) {
        i := |front|;
      } else {
        i := LastLook(s, front);
        assert front[..i] == actions[..i];
      }
    }
  }

  /** Latency: at no time are more than threshold + 1 callbacks applied and not published. */
  lemma UnpublishedBound(s: State)
    requires Reachable(s) && s.ledger.threshold > 0
    ensures s.ledger.published <= |s.ledger.applied| <= s.ledger.published + s.ledger.threshold + 1
  {
    ReachableLedger(s);
  }

  // ---------------------------------------------------------------------------------------------
  // Nested updates.

  /** A nested call of `update` is never elected: it goes to the queue. Its enclosing call is the one
      applied last, and its definition lists the nested callback. */
  lemma NestedIsEnqueued(s: State, k: nat)
    requires Reachable(s) && Enabled(s, UpdateStep(L.NestedFetchAdd(k)))
    ensures var l := s.ledger;
      var child := Call(|l.registered|, l.updaters[k].phase.todo[0]);
      && k == 0 && l.applied != []
      && child.callback in l.applied[|l.applied| - 1].callback.nested
      && Do(s, UpdateStep(L.NestedFetchAdd(k))).ledger.updaters[0].Unwritten() == [child]
      && |Do(s, UpdateStep(L.NestedFetchAdd(k))).ledger.updaters| == 1
      && child !in L.Line(l)
  {
    ReachableLedger(s);
    var l := s.ledger;
    var child := Call(|l.registered|, l.updaters[k].phase.todo[0]);
    if child in L.Line(l) {
      L.Fresh(l, child);
    }
  }

  /** The elected call of a session is still at work, or `c` is applied and published. */
  ghost predicate BeforeReturn(l: L.State, own: Call, c: Call) {
    || (|l.updaters| == 1 && l.updaters[0].own == own && own !in l.returned && c in l.registered)
    || (l.published <= |l.applied| && c in l.applied[..l.published])
  }

  lemma PublishedStays(l: L.State, a: L.Action, c: Call)
    requires L.SingleUpdater(l) && L.Updating(l) && L.Enabled(l, a)
    requires l.published <= |l.applied| && c in l.applied[..l.published]
    ensures var l' := L.Do(l, a); l'.published <= |l'.applied| && c in l'.applied[..l'.published]
  {
    var l' := L.Do(l, a);
    L.HistoryGrows(l, a);
    L.KeepsUpdating(l, a);
    L.KeepsSingleUpdater(l, a);
    assert l'.applied[..l.published] == l.applied[..l.published];
  }

  lemma AtWorkOrDone(l: L.State, a: L.Action, c: Call)
    requires L.SingleUpdater(l) && L.Conserved(l) && L.Count(l) && L.Updating(l) && L.Enabled(l, a)
    requires |l.updaters| == 1 && c in l.registered
    ensures |L.Do(l, a).updaters| == 1 || (l.published == |l.applied| && c in l.applied[..l.published])
  {
    if |L.Do(l, a).updaters| != 1 {
      L.KeepsSingleUpdater(l, a);
      L.ResignOutcome(l);
      assert c in multiset(l.registered);
      assert c in multiset(l.applied);
      assert l.applied[..l.published] == l.applied;
    }
  }

  lemma StepBeforeReturn(l: L.State, a: L.Action, own: Call, c: Call)
    requires L.Inv(l) && L.Enabled(l, a) && BeforeReturn(l, own, c)
    ensures BeforeReturn(L.Do(l, a), own, c)
  {
    var l' := L.Do(l, a);
    if |l.updaters| == 1 && c in l.registered {
      AtWorkOrDone(l, a, c);
    }
    if l.published <= |l.applied| && c in l.applied[..l.published] {
      PublishedStays(l, a, c);
    } else {
      L.KeepsUnanswered(l, a);
      L.OwnerStays(l, a);
      L.HistoryGrows(l, a);
      assert l'.updaters[0] in l'.updaters;
    }
  }

  lemma {:induction false} RunBeforeReturn(s: State, actions: seq<Action>, own: Call, c: Call)
    requires Reachable(s) && Run(s, actions) && BeforeReturn(s.ledger, own, c)
    ensures BeforeReturn(After(s, actions).ledger, own, c)
  {
    if actions != [] {
      var front := actions[..|actions| - 1];
      RunBeforeReturn(s, front, own, c);
      ReachableAfter(s, front);
      ReachableLedger(After(s, front));
      if actions[|actions| - 1].UpdateStep? {
        StepBeforeReturn(After(s, front).ledger, actions[|actions| - 1].u, own, c);
      }
    }
  }

  /** An updater's `update` returns only after everything registered while it was at work, by nested
      calls or by other threads, has been applied and published. */
  lemma ReturnsAfterAllItServes(s: State, c: Call, actions: seq<Action>)
    requires Reachable(s) && Run(s, actions) && |s.ledger.updaters| == 1 && c in s.ledger.registered
    requires s.ledger.updaters[0].own in After(s, actions).ledger.returned
    ensures var l := After(s, actions).ledger; l.published <= |l.applied| && c in l.applied[..l.published]
  {
    var own := s.ledger.updaters[0].own;
    ReachableLedger(s);
    assert s.ledger.updaters[0] in s.ledger.updaters;
    RunBeforeReturn(s, actions, own, c);
  }

  /** Nested updates: the child is applied after its enclosing call, wherever the run goes. */
  lemma NestedAppliedLater(s: State, k: nat, actions: seq<Action>, j: nat)
    requires Reachable(s) && Enabled(s, UpdateStep(L.NestedFetchAdd(k)))
    requires Run(Do(s, UpdateStep(L.NestedFetchAdd(k))), actions)
    requires var l := After(Do(s, UpdateStep(L.NestedFetchAdd(k))), actions).ledger;
      j < |l.applied| && l.applied[j] == Call(|s.ledger.registered|, s.ledger.updaters[k].phase.todo[0])
    ensures var l := After(Do(s, UpdateStep(L.NestedFetchAdd(k))), actions).ledger;
      0 < |s.ledger.applied| <= j && l.applied[|s.ledger.applied| - 1] == s.ledger.applied[|s.ledger.applied| - 1]
  {
    var s1 := Do(s, UpdateStep(L.NestedFetchAdd(k)));
    NestedIsEnqueued(s, k);
    AfterOne(s, UpdateStep(L.NestedFetchAdd(k)));
    RunGrows(s1, actions);
    var l, l' := s.ledger, After(s1, actions).ledger;
    assert forall i :: 0 <= i < |l.applied| ==> l'.applied[i] == s1.ledger.applied[i] == l.applied[i] == L.Line(l)[i];
  }

  // ---------------------------------------------------------------------------------------------
  // Memory.

  /** Ownership: every object ever created is in exactly one place, exactly once: published, in the
      updater's hand, in a retire list, in the pool, or deleted. What is not deleted is alive. */
  lemma EveryObjectOnce(s: State)
    requires Reachable(s)
    ensures M.Places(s.mem) + multiset(s.mem.freed) == M.Objects(s.mem.created)
    ensures M.Places(s.mem) == multiset(s.mem.heap.Keys)
    ensures |s.mem.heap| + |s.mem.freed| == s.mem.created
  {
    ReachableMem(s);
    M.AliveObjects(s.mem);
  }

  /** Amortised advance: every epoch advance is paid for by `hardware_concurrency` calls of `retire`. */
  lemma AmortisedAdvance(s: State)
    requires Reachable(s)
    ensures s.mem.advances * s.mem.concurrency + |s.mem.lists.At(s.mem.epoch)| <= s.mem.retires
  {
    ReachableMem(s);
  }

  /** Pool arithmetic, scans blocked or not: how many objects are pooled and how many are alive. */
  lemma PoolArithmetic(s: State)
    requires Reachable(s)
    ensures var m := s.mem;
      var reused := if m.copies < m.pool then m.pool - m.copies else 0;
      if m.hand.Reclaimed? then
        |m.heap| == 1 + |m.finished| + m.copies
      else
        && |m.finished| == reused
        && |m.heap| == 1 + |m.lists.At(!m.epoch)| + m.copies + reused
  {
    ReachableMem(s);
    M.AliveObjects(s.mem);
  }

  /** Steady state: as long as no scan has met a reader of the previous epoch, at most 2C + 1 objects
      are ever created, none is deleted, and from the 2C-th `retire` on no copy needs a new one. */
  lemma SteadyState(s: State)
    requires Reachable(s) && s.mem.blocked == 0
    ensures s.mem.created <= 2 * s.mem.concurrency + 1 && s.mem.freed == []
    ensures 2 * s.mem.concurrency <= s.mem.retires && s.mem.hand.Empty? ==> s.mem.finished != []
    ensures 2 * s.mem.concurrency <= s.mem.retires ==> s.mem.created == 2 * s.mem.concurrency + 1
  {
    ReachableMem(s);
  }

  // ---------------------------------------------------------------------------------------------
  // What the counters of the bounds count.

  predicate IsRetire(a: Action) {
    a.RetireStep? && a.m.Push?
  }

  predicate IsAdvance(a: Action) {
    a.RetireStep? && a.m.Flip?
  }

  predicate IsCopy(a: Action) {
    a.UpdateStep? && a.u.GetCopy?
  }

  function Retires(actions: seq<Action>): nat {
    if actions == [] then 0
    else Retires(actions[..|actions| - 1]) + if IsRetire(actions[|actions| - 1]) then 1 else 0
  }

  function Advances(actions: seq<Action>): nat {
    if actions == [] then 0
    else Advances(actions[..|actions| - 1]) + if IsAdvance(actions[|actions| - 1]) then 1 else 0
  }

  function Copies(actions: seq<Action>): nat {
    if actions == [] then 0
    else Copies(actions[..|actions| - 1]) + if IsCopy(actions[|actions| - 1]) then 1 else 0
  }

  lemma UpdaterCounts(m: M.Mem, a: M.UpdaterAction)
    requires M.UpdaterEnabled(m, a)
    ensures var m' := M.UpdaterDo(m, a);
      && m'.retires == m.retires + (if a.Push? then 1 else 0)
      && m'.advances == m.advances + (if a.Flip? then 1 else 0)
      && m'.blocked == m.blocked + (if a.ReadSlot? && m.slots[a.t] == M.Label(!m.epoch) then 1 else 0)
      && (!a.Flip? ==>
            m'.copies == m.copies + (if a.GetCopy? then 1 else 0) && m'.pool == m.pool && m'.epoch == m.epoch)
  {
  }

  lemma StepCounts(s: State, a: Action)
    requires Enabled(s, a)
    ensures var m, m' := s.mem, Do(s, a).mem;
      && m'.retires == m.retires + (if IsRetire(a) then 1 else 0)
      && m'.advances == m.advances + (if IsAdvance(a) then 1 else 0)
      && (!IsAdvance(a) ==>
            m'.copies == m.copies + (if IsCopy(a) then 1 else 0) && m'.pool == m.pool && m'.epoch == m.epoch)
  {
    hide L.Do, L.Enabled, M.UpdaterDo;
    match a
    case ReaderStep(r) => M.ReaderFrame(s.mem, r);
    case RetireStep(_, m) => UpdaterCounts(s.mem, m);
    case UpdateStep(u) =>
      if Effect(s.ledger, u) != [] {
        UpdaterCounts(s.mem, Effect(s.ledger, u)[0]);
      }
  }

  lemma {:induction false} CountersCount(s: State, actions: seq<Action>)
    requires Run(s, actions)
    ensures After(s, actions).mem.retires == s.mem.retires + Retires(actions)
    ensures After(s, actions).mem.advances == s.mem.advances + Advances(actions)
    ensures Advances(actions) == 0 ==>
      && After(s, actions).mem.copies == s.mem.copies + Copies(actions)
      && After(s, actions).mem.pool == s.mem.pool && After(s, actions).mem.epoch == s.mem.epoch
  {
    if actions != [] {
      hide Enabled, Do;
      CountersCount(s, actions[..|actions| - 1]);
      StepCounts(After(s, actions[..|actions| - 1]), actions[|actions| - 1]);
    }
  }

  /** Pool arithmetic over runs: `k` copies after an epoch advance, and before the next scan that succeeds,
      the pool has `k` objects less than at the advance, or none. */
  lemma PoolShrinks(s: State, actions: seq<Action>)
    requires Reachable(s) && Enabled(s, RetireStep(0, M.Flip))
    requires Run(Do(s, RetireStep(0, M.Flip)), actions) && Advances(actions) == 0
    ensures var m := After(Do(s, RetireStep(0, M.Flip)), actions).mem;
      var f0, k := |s.mem.finished|, Copies(actions);
      !m.hand.Reclaimed? ==>
        && |m.finished| == (if k < f0 then f0 - k else 0)
        && |m.heap| == 1 + |m.lists.At(!m.epoch)| + if k < f0 then f0 else k
  {
    var s1 := Do(s, RetireStep(0, M.Flip));
    AfterOne(s, RetireStep(0, M.Flip));
    ReachableAfter(s1, actions);
    CountersCount(s1, actions);
    PoolArithmetic(After(s1, actions));
  }

  /** A scan is given up only because of a thread that is reading, with the label of the previous epoch. */
  lemma BlockedByReader(s: State, a: Action)
    requires Reachable(s) && Enabled(s, a) && Do(s, a).mem.blocked != s.mem.blocked
    ensures a.RetireStep? && a.m.ReadSlot?
    ensures s.mem.ReaderOf(a.m.t).Locked() && s.mem.ReaderOf(a.m.t).stamp != s.mem.epoch
    ensures Do(s, a).mem.blocked == s.mem.blocked + 1
  {
    hide L.Do, L.Enabled, M.UpdaterDo;
    ReachableSlots(s);
    match a
    case ReaderStep(r) => M.ReaderFrame(s.mem, r);
    case RetireStep(_, m) => UpdaterCounts(s.mem, m);
    case UpdateStep(u) =>
      if Effect(s.ledger, u) != [] {
        UpdaterCounts(s.mem, Effect(s.ledger, u)[0]);
      }
  }

  /** And it is given up at the first such thread it meets. */
  lemma ReaderBlocks(s: State, k: nat, t: M.Tid)
    requires Reachable(s) && Enabled(s, RetireStep(k, M.ReadSlot(t)))
    requires s.mem.ReaderOf(t).Locked() && s.mem.ReaderOf(t).stamp != s.mem.epoch
    ensures var m := Do(s, RetireStep(k, M.ReadSlot(t))).mem; m.hand.Empty? && m.blocked == s.mem.blocked + 1
  {
    ReachableSlots(s);
  }
}
