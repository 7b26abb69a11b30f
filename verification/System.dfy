/** `rcu_protected<T>` as a whole: the memory side and the registration side, driven by the threads of
    a program in any sequentially consistent interleaving. */
module System {
  import opened Callbacks
  import M = Memory
  import L = Ledger

  datatype State = State(mem: M.Mem, ledger: L.State)

  /** One atomic step: of a reader, of a thread in `update` or `do_updates`, or of the updater numbered
      `k` inside `retire`. */
  datatype Action =
    | ReaderStep(r: M.ReaderAction)
    | UpdateStep(u: L.Action)
    | RetireStep(k: nat, m: M.UpdaterAction)

  function Init(concurrency: M.Positive, threshold: nat, capacity: L.Positive, initial: T): State {
    State(M.Init(concurrency, initial), L.Init(threshold, capacity))
  }

  /** What a step of `update` or `do_updates` does to the memory, if anything. */
  function Effect(l: L.State, a: L.Action): (e: seq<M.UpdaterAction>)
    requires L.Enabled(l, a)
  {
    match a
    case GetCopy(_) => [M.GetCopy]
    case Invoke(k) => [M.Write(l.updaters[k].phase.call.callback.effect)]
    case PublishCopy(_) => [M.Exchange]
    case _ => []
  }

  predicate Enabled(s: State, a: Action) {
    match a
    case ReaderStep(r) => M.ReaderEnabled(s.mem, r)
    case UpdateStep(u) =>
      && L.Enabled(s.ledger, u)
      && (u.Resign? ==> s.mem.hand.Empty?)
      && (Effect(s.ledger, u) != [] ==> M.UpdaterEnabled(s.mem, Effect(s.ledger, u)[0]))
    case RetireStep(k, m) =>
      && k < |s.ledger.updaters| && s.ledger.updaters[k].phase.Retire?
      && (m.Push? || m.AccessSlots? || m.ReadSlot? || m.Reclaim? || m.Flip?)
      && M.UpdaterEnabled(s.mem, m)
  }

  function Do(s: State, a: Action): State
    requires Enabled(s, a)
  {
    match a
    case ReaderStep(r) => s.(mem := M.ReaderDo(s.mem, r))
    case UpdateStep(u) =>
      var e := Effect(s.ledger, u);
      State(if e == [] then s.mem else M.UpdaterDo(s.mem, e[0]), L.Do(s.ledger, u))
    case RetireStep(_, m) => s.(mem := M.UpdaterDo(s.mem, m))
  }

  // ---------------------------------------------------------------------------------------------
  // Runs.

  predicate Run(s: State, actions: seq<Action>)
    decreases |actions|, 0
  {
    actions == [] ||
    (Run(s, actions[..|actions| - 1]) && Enabled(After(s, actions[..|actions| - 1]), actions[|actions| - 1]))
  }

  function After(s: State, actions: seq<Action>): State
    requires Run(s, actions)
    decreases |actions|, 1
  {
    if actions == [] then s
    else Do(After(s, actions[..|actions| - 1]), actions[|actions| - 1])
  }

  ghost predicate Initial(s: State) {
    s == Init(s.mem.concurrency, s.ledger.threshold, s.ledger.capacity, s.mem.initial)
  }

  ghost predicate Reachable(s: State) {
    exists s0: State, actions :: Initial(s0) && Run(s0, actions) && After(s0, actions) == s
  }

  lemma InitialReachable(s: State)
    requires Initial(s)
    ensures Reachable(s)
  {
    assert Run(s, []) && After(s, []) == s;
  }

  // ---------------------------------------------------------------------------------------------
  // The invariant.

  /** How the two sides fit together: what the updater has in hand at each point of its control flow,
      and that the copies have been through exactly the applied callbacks. */
  ghost predicate Joined(s: State) {
    && s.mem.log == Effects(s.ledger.applied)
    && s.mem.published == s.ledger.published
    && if |s.ledger.updaters| == 1 then
         var p := s.ledger.updaters[0].phase;
         && (p.Elected? || p.Recopy? ==> s.mem.hand.Empty?)
         && (p.Retire? ==> !s.mem.hand.Copy?)
         && (!p.Elected? && !p.Recopy? && !p.Retire? ==> s.mem.hand.Copy?)
       else s.mem.hand.Empty?
  }

  ghost predicate Inv(s: State) {
    M.Inv(s.mem) && L.Inv(s.ledger) && Joined(s)
  }

  lemma InvokeKeepsJoined(s: State, k: nat)
    requires L.SingleUpdater(s.ledger) && Joined(s) && Enabled(s, UpdateStep(L.Invoke(k)))
    ensures Joined(Do(s, UpdateStep(L.Invoke(k))))
  {
    assert Effects(L.Do(s.ledger, L.Invoke(k)).applied)
        == Effects(s.ledger.applied) + [s.ledger.updaters[0].phase.call.callback.effect];
  }

  lemma RetireKeepsJoined(s: State, a: Action)
    requires L.SingleUpdater(s.ledger) && Joined(s) && Enabled(s, a) && a.RetireStep?
    ensures Joined(Do(s, a))
  {
  }

  lemma UpdateKeepsJoined(s: State, u: L.Action)
    requires L.SingleUpdater(s.ledger) && L.Updating(s.ledger) && Joined(s) && Enabled(s, UpdateStep(u)) && !u.Invoke?
    ensures Joined(Do(s, UpdateStep(u)))
  {
  }

  lemma KeepsJoined(s: State, a: Action)
    requires L.SingleUpdater(s.ledger) && L.Updating(s.ledger) && Joined(s) && Enabled(s, a)
    ensures Joined(Do(s, a))
  {
    match a
    case ReaderStep(_) =>
    case RetireStep(_, _) => RetireKeepsJoined(s, a);
    case UpdateStep(u) =>
      if u.Invoke? {
        InvokeKeepsJoined(s, u.k);
      } else {
        UpdateKeepsJoined(s, u);
      }
  }

  lemma KeepsInv(s: State)
    requires Inv(s)
    ensures forall a :: Enabled(s, a) ==> Inv(Do(s, a))
  {
    forall a | Enabled(s, a) ensures Inv(Do(s, a)) {
      KeepsJoined(s, a);
      match a
      case ReaderStep(r) => M.ReaderPreserves(s.mem, r);
      case UpdateStep(u) =>
        L.Preserves(s.ledger, u);
        if Effect(s.ledger, u) != [] {
          M.UpdaterPreserves(s.mem, Effect(s.ledger, u)[0]);
        }
      case RetireStep(_, m) => M.UpdaterPreserves(s.mem, m);
    }
  }

  lemma {:induction false} RunKeepsInv(s: State, actions: seq<Action>)
    requires Inv(s) && Run(s, actions)
    ensures Inv(After(s, actions))
  {
    if actions != [] {
      RunKeepsInv(s, actions[..|actions| - 1]);
      KeepsInv(After(s, actions[..|actions| - 1]));
    }
  }

  lemma ReachableInv(s: State)
    requires Reachable(s)
    ensures Inv(s)
  {
    var s0: State, actions :| Initial(s0) && Run(s0, actions) && After(s0, actions) == s;
    M.InitInv(s0.mem.concurrency, s0.mem.initial);
    L.InitInv(s0.ledger.threshold, s0.ledger.capacity);
    RunKeepsInv(s0, actions);
  }

  lemma {:induction false} Concatenate(s: State, first: seq<Action>, second: seq<Action>)
    requires Run(s, first) && Run(After(s, first), second)
    ensures Run(s, first + second) && After(s, first + second) == After(After(s, first), second)
  {
    if second == [] {
      assert first + second == first;
    } else {
      var front := second[..|second| - 1];
      Concatenate(s, first, front);
      assert (first + second)[..|first + second| - 1] == first + front;
    }
  }

  lemma ReachableAfter(s: State, actions: seq<Action>)
    requires Reachable(s) && Run(s, actions)
    ensures Reachable(After(s, actions))
  {
    var s0: State, before :| Initial(s0) && Run(s0, before) && After(s0, before) == s;
    Concatenate(s0, before, actions);
  }

  /** What no step, or no step but a reader's, ever changes. */
  lemma StepFrame(s: State, a: Action)
    requires Enabled(s, a)
    ensures var s' := Do(s, a);
      && s'.mem.concurrency == s.mem.concurrency && s'.mem.initial == s.mem.initial
      && s.mem.advances <= s'.mem.advances
      && s.mem.slots.Keys <= s'.mem.slots.Keys && |s'.mem.slots| <= |s.mem.slots| + 1
      && (!a.ReaderStep? ==> s'.mem.readers == s.mem.readers && s'.mem.slots == s.mem.slots)
  {
    match a
    case ReaderStep(r) => M.ReaderFrame(s.mem, r);
    case RetireStep(_, m) => M.UpdaterFrame(s.mem, m);
    case UpdateStep(u) =>
      if Effect(s.ledger, u) != [] {
        M.UpdaterFrame(s.mem, Effect(s.ledger, u)[0]);
      }
  }

  lemma OneStep(s: State, a: Action)
    requires Enabled(s, a)
    ensures Run(s, [a]) && After(s, [a]) == Do(s, a)
  {
    var one := [a];
    assert |one| == 1 && one[..|one| - 1] == [] && one[|one| - 1] == a;
    assert After(s, one[..|one| - 1]) == s;
  }

  /** `s'` is reached from `s` by steps of any threads. */
  ghost predicate Follows(s: State, s': State) {
    exists actions :: Run(s, actions) && After(s, actions) == s'
  }

  lemma FollowsSelf(s: State)
    ensures Follows(s, s)
  {
    assert Run(s, []) && After(s, []) == s;
  }

  lemma FollowsStep(s: State, s': State, a: Action)
    requires Follows(s, s') && Enabled(s', a)
    ensures Follows(s, Do(s', a))
  {
    var actions :| Run(s, actions) && After(s, actions) == s';
    assert (actions + [a])[..|actions|] == actions;
    assert Run(s, actions + [a]) && After(s, actions + [a]) == Do(s', a);
  }

  lemma FollowsTransitive(s: State, s': State, s'': State)
    requires Follows(s, s') && Follows(s', s'')
    ensures Follows(s, s'')
  {
    var first :| Run(s, first) && After(s, first) == s';
    var second :| Run(s', second) && After(s', second) == s'';
    Concatenate(s, first, second);
  }

  lemma ReachableFollows(s: State, s': State)
    requires Reachable(s) && Follows(s, s')
    ensures Reachable(s')
  {
    var actions :| Run(s, actions) && After(s, actions) == s';
    ReachableAfter(s, actions);
  }

  // The parts of the invariant, for theorems that are about one side only.

  lemma ReachableMem(s: State)
    requires Reachable(s)
    ensures M.Inv(s.mem)
  {
    ReachableInv(s);
  }

  lemma ReachableValues(s: State)
    requires Reachable(s)
    ensures M.Values(s.mem)
  {
    ReachableMem(s);
  }

  lemma ReachableSlots(s: State)
    requires Reachable(s)
    ensures M.SlotsMirrorReaders(s.mem)
  {
    ReachableMem(s);
  }

  lemma ReachableLedger(s: State)
    requires Reachable(s)
    ensures L.Inv(s.ledger)
  {
    ReachableInv(s);
  }

  lemma ReachableJoined(s: State)
    requires Reachable(s)
    ensures L.SingleUpdater(s.ledger) && L.Updating(s.ledger) && Joined(s)
  {
    ReachableInv(s);
  }
}
