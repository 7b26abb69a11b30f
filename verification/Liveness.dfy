/** Progress and termination of `update`: what can block it, and how much work is left. */
module Liveness {
  import opened Callbacks
  import opened System
  import opened Guarantees
  import M = Memory
  import L = Ledger

  /** A step of an update under way: of the updater, or of a thread about to enqueue its update. Not
      reader steps, and not the first step of a new call from outside. */
  predicate Work(a: Action) {
    !a.ReaderStep? && !(a.UpdateStep? && a.u.FetchAdd?)
  }

  /** The updater itself is blocked in the `blockingWrite` of a nested call, and the queue is full. */
  predicate Stuck(s: State) {
    |s.ledger.updaters| == 1 && s.ledger.updaters[0].phase.Writing? && s.ledger.capacity <= |s.ledger.queue|
  }

  ghost function NextRetireStep(s: State): Action
    requires M.SlotsMirrorReaders(s.mem)
    requires |s.ledger.updaters| == 1 && s.ledger.updaters[0].phase.Retire?
  {
    match s.mem.hand
    case Old(_) => RetireStep(0, M.Push)
    case Due => RetireStep(0, M.AccessSlots)
    case Scanning(pending) =>
      if pending == {} then RetireStep(0, M.Reclaim) else var t :| t in pending; RetireStep(0, M.ReadSlot(t))
    case Reclaimed => RetireStep(0, M.Flip)
    case _ =>
      var u := s.ledger.updaters[0];
      UpdateStep(if u.done == u.count then L.Resign(0) else L.GetCopy(0))
  }

  ghost function NextStep(s: State): Action
    requires M.SlotsMirrorReaders(s.mem)
    requires |s.ledger.updaters| == 1
  {
    match s.ledger.updaters[0].phase
    case Elected => UpdateStep(L.GetCopy(0))
    case Running(_) => UpdateStep(L.Invoke(0))
    case Nested(_) => UpdateStep(L.NestedFetchAdd(0))
    case Writing(_, _) => UpdateStep(L.NestedWrite(0))
    case Load => UpdateStep(L.LoadCount(0))
    case Drain => UpdateStep(if s.ledger.queue != [] then L.Read(0) else L.Enqueue(0))
    case Reload => UpdateStep(L.ReloadCount(0))
    case Publish => UpdateStep(L.PublishCopy(0))
    case Retire => NextRetireStep(s)
    case Recopy => UpdateStep(L.GetCopy(0))
  }

  /** An updater that waits for the queue to fill waits for a thread that has registered and is able
      to write: the queue cannot be full. */
  lemma EmptyQueueHasWriter(l: L.State)
    requires L.SingleUpdater(l) && L.Conserved(l) && L.Count(l) && L.Updating(l)
    requires |l.updaters| == 1 && l.updaters[0].phase.Drain? && l.queue == []
    ensures l.waiting != [] && |l.queue| < l.capacity
  {
    L.Sizes(l);
  }

  lemma RetireStepEnabled(s: State)
    requires M.SlotsMirrorReaders(s.mem) && M.Values(s.mem) && Joined(s)
    requires |s.ledger.updaters| == 1 && s.ledger.updaters[0].phase.Retire?
    ensures Work(NextRetireStep(s)) && Enabled(s, NextRetireStep(s))
  {
    var a := NextRetireStep(s);
    assert a.UpdateStep? ==> Effect(s.ledger, a.u) == if a.u.Resign? then [] else [M.GetCopy];
  }

  lemma NextStepEnabled(s: State)
    requires L.SingleUpdater(s.ledger) && L.Conserved(s.ledger) && L.Count(s.ledger) && L.Updating(s.ledger)
    requires M.SlotsMirrorReaders(s.mem) && M.Values(s.mem) && Joined(s)
    requires |s.ledger.updaters| == 1 && !Stuck(s)
    ensures Work(NextStep(s)) && Enabled(s, NextStep(s))
  {
    var p := s.ledger.updaters[0].phase;
    if p.Retire? {
      RetireStepEnabled(s);
    } else if p.Drain? {
      if s.ledger.queue == [] {
        EmptyQueueHasWriter(s.ledger);
      }
    } else {
      assert L.Enabled(s.ledger, NextStep(s).u);
    }
  }

  lemma StuckBlocks(s: State, a: Action)
    requires Stuck(s) && Enabled(s, a)
    ensures !Work(a)
  {
  }

  /** Deadlock freedom, exactly: while an update is outstanding, some updater or enqueuer can step if
      and only if the updater is not inside a nested call of `update` that finds the queue full. */
  lemma ProgressUnlessStuck(s: State)
    requires Reachable(s) && s.ledger.updateCnt > 0
    ensures (exists a :: Work(a) && Enabled(s, a)) <==> !Stuck(s)
  {
    if Stuck(s) {
      forall a | Enabled(s, a) ensures !Work(a) {
        StuckBlocks(s, a);
      }
    } else {
      ReachableInv(s);
      NextStepEnabled(s);
    }
  }

  // ---------------------------------------------------------------------------------------------
  // The deadlock.

  lemma StuckStep(s: State, a: Action)
    requires Stuck(s) && s.ledger.updateCnt > 0 && Enabled(s, a)
    ensures Stuck(Do(s, a)) && Do(s, a).ledger.updateCnt > 0
    ensures Do(s, a).ledger.applied == s.ledger.applied && Do(s, a).ledger.published == s.ledger.published
    ensures Do(s, a).ledger.returned == s.ledger.returned
  {
  }

  /** A blocked updater stays blocked: no call ever returns again and nothing is applied or published. */
  lemma {:induction false} StuckForever(s: State, actions: seq<Action>)
    requires Stuck(s) && s.ledger.updateCnt > 0 && Run(s, actions)
    ensures var s' := After(s, actions);
      && Stuck(s') && s'.ledger.updateCnt > 0 && s'.ledger.returned == s.ledger.returned
      && s'.ledger.applied == s.ledger.applied && s'.ledger.published == s.ledger.published
  {
    if actions != [] {
      var front := actions[..|actions| - 1];
      StuckForever(s, front);
      StuckStep(After(s, front), actions[|actions| - 1]);
    }
  }

  /** No registered callback calls `update`. */
  ghost predicate Flat(l: L.State) {
    forall c :: c in l.registered ==> c.callback.nested == []
  }

  lemma LastIsFlat(l: L.State)
    requires L.Conserved(l) && L.Tickets(l) && Flat(l)
    ensures l.applied != [] ==> l.applied[|l.applied| - 1].callback.nested == []
  {
    if l.applied != [] {
      var c := l.applied[|l.applied| - 1];
      assert c in L.Line(l);
      L.Fresh(l, c);
    }
  }

  /** Callbacks that do not call `update` never deadlock. */
  lemma FlatCallbacksNeverStuck(s: State)
    requires Reachable(s) && Flat(s.ledger)
    ensures !Stuck(s)
  {
    ReachableLedger(s);
    LastIsFlat(s.ledger);
  }

  lemma Prepend(s: State, a: Action, rest: seq<Action>)
    requires Enabled(s, a) && Run(Do(s, a), rest)
    ensures Run(s, [a] + rest) && After(s, [a] + rest) == After(Do(s, a), rest)
  {
    OneStep(s, a);
    Concatenate(s, [a], rest);
  }

  /** Inside a callback with one nested call more than the queue has room for. */
  lemma {:induction false} OverflowsQueue(s: State, room: nat) returns (actions: seq<Action>)
    requires |s.ledger.updaters| == 1 && s.ledger.updateCnt > 0 && s.ledger.updaters[0].phase.Nested?
    requires |s.ledger.updaters[0].phase.todo| == room + 1 && |s.ledger.queue| + room == s.ledger.capacity
    ensures Run(s, actions) && Stuck(After(s, actions))
    decreases room
  {
    var register := UpdateStep(L.NestedFetchAdd(0));
    var s1 := Do(s, register);
    if room == 0 {
      actions := [register];
      Prepend(s, register, []);
    } else {
      var write := UpdateStep(L.NestedWrite(0));
      assert Enabled(s1, write);
      var rest := OverflowsQueue(Do(s1, write), room - 1);
      Prepend(s1, write, rest);
      Prepend(s, register, [write] + rest);
      actions := [register] + ([write] + rest);
    }
  }

  /** The deadlock is real: with any queue, one thread alone blocks itself for ever by one `update`
      whose callback calls `update` once more often than the queue has room. */
  lemma SelfDeadlock(concurrency: M.Positive, threshold: nat, capacity: L.Positive, initial: T, leaf: Callback)
    returns (actions: seq<Action>)
    ensures var s := Init(concurrency, threshold, capacity, initial);
      && Run(s, actions) && Stuck(After(s, actions))
      && After(s, actions).ledger.updateCnt > 0
  {
    var s := Init(concurrency, threshold, capacity, initial);
    var nested := seq(capacity + 1, _ => leaf);
    var register := UpdateStep(L.FetchAdd(Callback(leaf.effect, nested)));
    var copy := UpdateStep(L.GetCopy(0));
    var invoke := UpdateStep(L.Invoke(0));
    var s1 := Do(s, register);
    var s2 := Do(s1, copy);
    var s3 := Do(s2, invoke);
    var rest := OverflowsQueue(s3, capacity);
    Prepend(s2, invoke, rest);
    Prepend(s1, copy, [invoke] + rest);
    Prepend(s, register, [copy] + ([invoke] + rest));
    actions := [register] + ([copy] + ([invoke] + rest));
    assert Initial(s);
    assert Reachable(After(s, actions));
    ReachableJoined(After(s, actions));
  }

  // ---------------------------------------------------------------------------------------------
  // Termination.

  /** How many steps a callback may still cause: its own invocation, and a publication with a scan of
      `n` slots, and the same for its nested calls. */
  function Weight(f: Callback, n: nat): (w: nat)
    decreases f
    ensures w >= 12 + n
  {
    12 + n + WeightAll(f.nested, n)
  }

  function WeightAll(todo: seq<Callback>, n: nat): nat
    decreases todo
  {
    if todo == [] then 0 else Weight(todo[0], n) + 3 + WeightAll(todo[1..], n)
  }

  /** The work in calls that have reached a stage: 2 before the queue, 1 in it, 0 in the updater's hand. */
  function Pending(calls: seq<Call>, stage: nat, n: nat): nat {
    if calls == [] then 0
    else Weight(calls[|calls| - 1].callback, n) + stage + Pending(calls[..|calls| - 1], stage, n)
  }

  function RetireDistance(hand: M.Hand, n: nat): nat {
    match hand
    case Empty => 3
    case Copy(_) => 3
    case Reclaimed => 4
    case Scanning(pending) => 5 + |pending|
    case Due => 6 + n
    case Old(_) => 7 + n
  }

  /** How far the updater is from its next invocation. */
  function Distance(p: L.Phase, hand: M.Hand, n: nat): nat {
    match p
    case Running(_) => 0
    case Elected => 1
    case Drain => 1
    case Recopy => 2
    case Retire => RetireDistance(hand, n)
    case Publish => 8 + n
    case Reload => 9 + n
    case Load => 10 + n
    case Nested(_) => 11 + n
    case Writing(_, _) => 11 + n
  }

  function UpdaterFuel(u: L.Updater, hand: M.Hand, n: nat): nat {
    Distance(u.phase, hand, n) + Pending(u.InHand(), 0, n) + Pending(u.Unwritten(), 2, n)
    + if u.Inside() then WeightAll(u.phase.todo, n) else 0
  }

  /** A bound for the number of steps of updates under way, with at most `n` reader slots. */
  function Fuel(s: State, n: nat): nat {
    Pending(s.ledger.queue, 1, n) + Pending(s.ledger.waiting, 2, n)
    + if |s.ledger.updaters| == 1 then UpdaterFuel(s.ledger.updaters[0], s.mem.hand, n) else 0
  }

  lemma {:induction false} PendingConcat(a: seq<Call>, b: seq<Call>, stage: nat, n: nat)
    ensures Pending(a + b, stage, n) == Pending(a, stage, n) + Pending(b, stage, n)
  {
    if b == [] {
      assert a + b == a;
    } else {
      assert (a + b)[..|a + b| - 1] == a + b[..|b| - 1];
      PendingConcat(a, b[..|b| - 1], stage, n);
    }
  }

  lemma PendingOne(c: Call, stage: nat, n: nat)
    ensures Pending([c], stage, n) == Weight(c.callback, n) + stage
  {
    assert [c][..0] == [];
  }

  lemma ScanShortens(m: M.Mem, t: M.Tid, n: nat)
    requires M.UpdaterEnabled(m, M.ReadSlot(t))
    ensures RetireDistance(M.UpdaterDo(m, M.ReadSlot(t)).hand, n) < RetireDistance(m.hand, n)
  {
  }

  lemma RetireShortens(m: M.Mem, a: M.UpdaterAction, n: nat)
    requires M.UpdaterEnabled(m, a) && (a.Push? || a.AccessSlots? || a.ReadSlot? || a.Reclaim? || a.Flip?) && |m.slots| <= n
    ensures RetireDistance(M.UpdaterDo(m, a).hand, n) < RetireDistance(m.hand, n)
  {
    if a.ReadSlot? {
      ScanShortens(m, a.t, n);
    } else {
      assert |m.slots.Keys| == |m.slots|;
    }
  }

  lemma RetireStepBurns(s: State, a: Action, n: nat)
    requires L.SingleUpdater(s.ledger) && Enabled(s, a) && a.RetireStep? && |s.mem.slots| <= n
    ensures Fuel(Do(s, a), n) < Fuel(s, n)
  {
    RetireShortens(s.mem, a.m, n);
  }

  lemma EnqueueBurns(s: State, i: nat, n: nat)
    requires L.SingleUpdater(s.ledger) && Enabled(s, UpdateStep(L.Enqueue(i)))
    ensures Fuel(Do(s, UpdateStep(L.Enqueue(i))), n) < Fuel(s, n)
  {
    var w := s.ledger.waiting;
    assert w == w[..i] + [w[i]] + w[i + 1..];
    PendingConcat(w[..i], [w[i]], 2, n);
    PendingConcat(w[..i] + [w[i]], w[i + 1..], 2, n);
    PendingConcat(w[..i], w[i + 1..], 2, n);
    PendingConcat(s.ledger.queue, [w[i]], 1, n);
    PendingOne(w[i], 1, n);
    PendingOne(w[i], 2, n);
  }

  lemma InvokeBurns(s: State, n: nat)
    requires L.SingleUpdater(s.ledger) && Enabled(s, UpdateStep(L.Invoke(0)))
    ensures Fuel(Do(s, UpdateStep(L.Invoke(0))), n) < Fuel(s, n)
  {
    PendingOne(s.ledger.updaters[0].phase.call, 0, n);
  }

  lemma NestedFetchAddBurns(s: State, n: nat)
    requires L.SingleUpdater(s.ledger) && Enabled(s, UpdateStep(L.NestedFetchAdd(0)))
    ensures Fuel(Do(s, UpdateStep(L.NestedFetchAdd(0))), n) < Fuel(s, n)
  {
    PendingOne(Do(s, UpdateStep(L.NestedFetchAdd(0))).ledger.updaters[0].phase.call, 2, n);
  }

  lemma NestedWriteBurns(s: State, n: nat)
    requires L.SingleUpdater(s.ledger) && Enabled(s, UpdateStep(L.NestedWrite(0)))
    ensures Fuel(Do(s, UpdateStep(L.NestedWrite(0))), n) < Fuel(s, n)
  {
    var c := s.ledger.updaters[0].phase.call;
    PendingOne(c, 2, n);
    PendingOne(c, 1, n);
    PendingConcat(s.ledger.queue, [c], 1, n);
  }

  lemma ReadBurns(s: State, n: nat)
    requires L.SingleUpdater(s.ledger) && Enabled(s, UpdateStep(L.Read(0)))
    ensures Fuel(Do(s, UpdateStep(L.Read(0))), n) < Fuel(s, n)
  {
    var q := s.ledger.queue;
    assert q == [q[0]] + q[1..];
    PendingConcat([q[0]], q[1..], 1, n);
    PendingOne(q[0], 1, n);
    PendingOne(q[0], 0, n);
  }

  lemma ResignBurns(s: State, n: nat)
    requires L.SingleUpdater(s.ledger) && Enabled(s, UpdateStep(L.Resign(0)))
    ensures Fuel(Do(s, UpdateStep(L.Resign(0))), n) < Fuel(s, n)
  {
  }

  lemma CountBurns(s: State, u: L.Action, n: nat)
    requires L.SingleUpdater(s.ledger) && L.Updating(s.ledger) && Enabled(s, UpdateStep(u))
    requires u.LoadCount? || u.ReloadCount?
    ensures Fuel(Do(s, UpdateStep(u)), n) < Fuel(s, n)
  {
  }

  lemma CopyBurns(s: State, u: L.Action, n: nat)
    requires L.SingleUpdater(s.ledger) && L.Updating(s.ledger) && Joined(s) && Enabled(s, UpdateStep(u))
    requires u.GetCopy? || u.PublishCopy?
    ensures Fuel(Do(s, UpdateStep(u)), n) < Fuel(s, n)
  {
  }

  /** Every step of an update under way burns fuel. */
  lemma WorkBurns(s: State, a: Action, n: nat)
    requires L.SingleUpdater(s.ledger) && L.Updating(s.ledger) && Joined(s) && |s.mem.slots| <= n
    requires Enabled(s, a) && Work(a)
    ensures Fuel(Do(s, a), n) < Fuel(s, n)
  {
    if a.RetireStep? {
      RetireStepBurns(s, a, n);
    } else {
      match a.u
      case Enqueue(i) => EnqueueBurns(s, i, n);
      case Invoke(_) => InvokeBurns(s, n);
      case NestedFetchAdd(_) => NestedFetchAddBurns(s, n);
      case NestedWrite(_) => NestedWriteBurns(s, n);
      case Read(_) => ReadBurns(s, n);
      case Resign(_) => ResignBurns(s, n);
      case LoadCount(_) => CountBurns(s, a.u, n);
      case ReloadCount(_) => CountBurns(s, a.u, n);
      case GetCopy(_) => CopyBurns(s, a.u, n);
      case PublishCopy(_) => CopyBurns(s, a.u, n);
      case FetchAdd(_) => assert false;
    }
  }

  /** The number of steps of updates in a run. */
  function Steps(actions: seq<Action>): nat {
    if actions == [] then 0
    else Steps(actions[..|actions| - 1]) + if Work(actions[|actions| - 1]) then 1 else 0
  }

  /** Nobody calls `update` from outside. */
  ghost predicate Closed(actions: seq<Action>) {
    forall a :: a in actions ==> !(a.UpdateStep? && a.u.FetchAdd?)
  }

  lemma FewerSlots(s: State, s': State, n: nat)
    requires s.mem.slots.Keys <= s'.mem.slots.Keys && |s'.mem.slots| <= n
    ensures |s.mem.slots| <= n
  {
    SubsetSize(s.mem.slots.Keys, s'.mem.slots.Keys);
    assert |s.mem.slots.Keys| == |s.mem.slots| && |s'.mem.slots.Keys| == |s'.mem.slots|;
  }

  lemma {:induction false} SubsetSize(a: set<M.Tid>, b: set<M.Tid>)
    requires a <= b
    ensures |a| <= |b|
  {
    if a != {} {
      var t :| t in a;
      SubsetSize(a - {t}, b - {t});
    }
  }

  lemma StepBurns(s: State, a: Action, n: nat)
    requires L.SingleUpdater(s.ledger) && L.Updating(s.ledger) && Joined(s) && |s.mem.slots| <= n
    requires Enabled(s, a) && !(a.UpdateStep? && a.u.FetchAdd?)
    ensures Fuel(Do(s, a), n) + (if Work(a) then 1 else 0) <= Fuel(s, n)
  {
    if Work(a) {
      WorkBurns(s, a, n);
    }
  }

  lemma {:induction false} StepsBurn(s: State, actions: seq<Action>, n: nat)
    requires Reachable(s) && Run(s, actions) && Closed(actions)
    ensures |After(s, actions).mem.slots| <= n ==> Steps(actions) + Fuel(After(s, actions), n) <= Fuel(s, n)
  {
    if actions != [] && |After(s, actions).mem.slots| <= n {
      var front, a := actions[..|actions| - 1], actions[|actions| - 1];
      var middle := After(s, front);
      StepFrame(middle, a);
      FewerSlots(middle, After(s, actions), n);
      StepsBurn(s, front, n);
      ReachableAfter(s, front);
      ReachableJoined(middle);
      assert a in actions;
      StepBurns(middle, a, n);
    }
  }

  /** Termination: without new calls from outside, however readers and threads interleave, a run has at
      most as many steps of updates as there is fuel for the slots that exist in the end. */
  lemma SessionsTerminate(s: State, actions: seq<Action>)
    requires Reachable(s) && Run(s, actions) && Closed(actions)
    ensures Steps(actions) <= Fuel(s, |After(s, actions).mem.slots|)
  {
    StepsBurn(s, actions, |After(s, actions).mem.slots|);
  }

  /** From every reachable state the updates under way can be finished, unless the updater is blocked
      in a nested call: then everything registered is applied and published, and all of it returned. */
  lemma {:induction false} CanFinish(s: State) returns (actions: seq<Action>)
    requires Reachable(s)
    ensures Run(s, actions) && Closed(actions)
    ensures After(s, actions).ledger.updateCnt == 0 || Stuck(After(s, actions))
    decreases Fuel(s, |s.mem.slots|)
  {
    ReachableJoined(s);
    if s.ledger.updateCnt == 0 || Stuck(s) {
      actions := [];
    } else {
      ProgressUnlessStuck(s);
      var a :| Work(a) && Enabled(s, a);
      var s' := Do(s, a);
      WorkBurns(s, a, |s.mem.slots|);
      AfterOne(s, a);
      StepFrame(s, a);
      var rest := CanFinish(s');
      Prepend(s, a, rest);
      actions := [a] + rest;
    }
  }

  lemma {:induction false} FlatStays(s: State, actions: seq<Action>)
    requires Reachable(s) && Flat(s.ledger) && Run(s, actions) && Closed(actions)
    ensures Flat(After(s, actions).ledger)
  {
    if actions != [] {
      var front, a := actions[..|actions| - 1], actions[|actions| - 1];
      assert a in actions && forall b :: b in front ==> b in actions;
      FlatStays(s, front);
      ReachableAfter(s, front);
      ReachableLedger(After(s, front));
      if a.UpdateStep? {
        FlatStep(After(s, front).ledger, a.u);
      }
    }
  }

  lemma FlatStep(l: L.State, a: L.Action)
    requires L.SingleUpdater(l) && L.Conserved(l) && L.Tickets(l) && L.Enclosed(l) && Flat(l)
    requires L.Enabled(l, a) && !a.FetchAdd?
    ensures Flat(L.Do(l, a))
  {
    if a.NestedFetchAdd? {
      LastIsFlat(l);
      assert false;
    } else {
      assert L.Do(l, a).registered == l.registered;
    }
  }

  /** If no callback calls `update`, the updates under way can always be finished. */
  lemma FlatCanFinish(s: State) returns (actions: seq<Action>)
    requires Reachable(s) && Flat(s.ledger)
    ensures Run(s, actions) && Closed(actions) && After(s, actions).ledger.updateCnt == 0
  {
    actions := CanFinish(s);
    FlatStays(s, actions);
    ReachableAfter(s, actions);
    FlatCallbacksNeverStuck(After(s, actions));
  }
}
