/** What one `update` does when nobody else calls it: its callback runs, then the callbacks it registers
    by nested calls, then those that they register, and so on, first come, first served. */
module Alone {
  import opened Callbacks
  import opened System
  import opened Liveness
  import Guarantees
  import M = Memory
  import L = Ledger

  /** The number of callbacks in a tree of nested calls. */
  function Nodes(f: Callback): (n: nat)
    decreases f
    ensures n >= 1
  {
    1 + NodesAll(f.nested)
  }

  function NodesAll(todo: seq<Callback>): (n: nat)
    decreases todo
    ensures |todo| <= n
  {
    if todo == [] then 0 else Nodes(todo[0]) + NodesAll(todo[1..])
  }

  lemma {:induction false} NodesConcat(a: seq<Callback>, b: seq<Callback>)
    ensures NodesAll(a + b) == NodesAll(a) + NodesAll(b)
  {
    if a == [] {
      assert a + b == b;
    } else {
      assert (a + b)[1..] == a[1..] + b;
      NodesConcat(a[1..], b);
    }
  }

  /** The order in which a queue of callbacks is served, if each one puts its nested calls at the end. */
  function Serve(queue: seq<Callback>): (order: seq<Callback>)
    decreases NodesAll(queue)
    ensures |order| == NodesAll(queue)
  {
    if queue == [] then []
    else
      NodesConcat(queue[1..], queue[0].nested);
      assert NodesAll(queue) == 1 + NodesAll(queue[0].nested) + NodesAll(queue[1..]);
      [queue[0]] + Serve(queue[1..] + queue[0].nested)
  }

  function CallbacksOf(calls: seq<Call>): seq<Callback> {
    seq(|calls|, i requires 0 <= i < |calls| => calls[i].callback)
  }

  lemma CallbacksConcat(a: seq<Call>, b: seq<Call>)
    ensures CallbacksOf(a + b) == CallbacksOf(a) + CallbacksOf(b)
  {
  }

  lemma Associate(a: seq<Callback>, f: Callback, b: seq<Callback>)
    ensures a + [f] + b == a + ([f] + b)
  {
  }

  lemma ServeFirst(f: Callback, rest: seq<Callback>)
    ensures Serve([f] + rest) == [f] + Serve(rest + f.nested)
  {
    assert ([f] + rest)[1..] == rest;
  }

  function Transformers(callbacks: seq<Callback>): seq<T -> T> {
    seq(|callbacks|, i requires 0 <= i < |callbacks| => callbacks[i].effect)
  }

  /** Calls that have a place behind the applied ones, in the order in which they got it. */
  function Counted(l: L.State): seq<Call> {
    if |l.updaters| == 1 then l.updaters[0].InHand() + l.queue + l.updaters[0].Unwritten() else l.queue
  }

  /** What is still to be served: the calls that are counted, then those the running callback will make. */
  function Ahead(l: L.State): seq<Callback> {
    CallbacksOf(Counted(l)) + if |l.updaters| == 1 && l.updaters[0].Inside() then l.updaters[0].phase.todo else []
  }

  /** Since `l0`, nobody but the updater called `update`, and its call was `f`. */
  ghost predicate Solo(l0: L.State, f: Callback, l: L.State) {
    && l.waiting == [] && |l.updaters| <= 1 && l.capacity == l0.capacity
    && l0.applied <= l.applied
    && l.registered == l0.registered + l.applied[|l0.applied|..] + Counted(l)
    && CallbacksOf(l.applied) + Serve(Ahead(l)) == CallbacksOf(l0.applied) + Serve([f])
    && (|l.updaters| == 1 && l.updaters[0].Inside() ==> |l0.applied| < |l.applied|)
  }

  lemma SoloBegins(l: L.State, f: Callback)
    requires L.SingleUpdater(l) && l.updateCnt == 0 && l.queue == [] && l.waiting == []
    ensures Solo(l, f, L.Do(l, L.FetchAdd(f)))
  {
    var l' := L.Do(l, L.FetchAdd(f));
    assert Counted(l') == [Call(|l.registered|, f)];
    assert Ahead(l') == [f];
  }

  lemma InvokeAhead(l: L.State)
    requires |l.updaters| == 1 && L.Enabled(l, L.Invoke(0))
    ensures var c := l.updaters[0].phase.call;
      && Counted(l) == [c] + l.queue && Counted(L.Do(l, L.Invoke(0))) == l.queue
      && Ahead(l) == [c.callback] + CallbacksOf(l.queue)
      && Ahead(L.Do(l, L.Invoke(0))) == CallbacksOf(l.queue) + c.callback.nested
  {
    CallbacksConcat([l.updaters[0].phase.call], l.queue);
  }

  lemma InvokeRegistered(l0: L.State, l: L.State)
    requires |l.updaters| == 1 && L.Enabled(l, L.Invoke(0)) && l0.applied <= l.applied
    ensures var l', n := L.Do(l, L.Invoke(0)), |l0.applied|;
      && l0.applied <= l'.applied
      && l0.registered + l.applied[n..] + Counted(l) == l0.registered + l'.applied[n..] + Counted(l')
  {
    InvokeAhead(l);
    var c, n := l.updaters[0].phase.call, |l0.applied|;
    hide Counted, Ahead, Serve, L.Continue;
    var l' := L.Do(l, L.Invoke(0));
    assert l'.applied[n..] == l.applied[n..] + [c];
    assert l0.registered + l.applied[n..] + ([c] + l.queue) == l0.registered + (l.applied[n..] + [c]) + l.queue;
  }

  /** The running callback has its effect; its nested calls are what comes last. */
  lemma SoloInvokes(l0: L.State, f: Callback, l: L.State)
    requires Solo(l0, f, l) && L.Enabled(l, L.Invoke(0))
    ensures Solo(l0, f, L.Do(l, L.Invoke(0)))
  {
    InvokeAhead(l);
    InvokeRegistered(l0, l);
    var c := l.updaters[0].phase.call;
    hide Counted, Ahead, Serve, L.Continue;
    var q := CallbacksOf(l.queue);
    ServeFirst(c.callback, q);
    CallbacksConcat(l.applied, [c]);
    assert CallbacksOf([c]) == [c.callback];
    Associate(CallbacksOf(l.applied), c.callback, Serve(q + c.callback.nested));
  }

  lemma SoloRegisters(l0: L.State, f: Callback, l: L.State)
    requires Solo(l0, f, l) && l.updateCnt > 0 && L.Enabled(l, L.NestedFetchAdd(0))
    ensures Solo(l0, f, L.Do(l, L.NestedFetchAdd(0)))
  {
    var l' := L.Do(l, L.NestedFetchAdd(0));
    var c := l'.updaters[0].phase.call;
    assert Counted(l) == l.queue && Counted(l') == l.queue + [c];
    assert Ahead(l') == Ahead(l);
  }

  /** Nothing is added to what is ahead, nothing is taken from it. */
  ghost predicate SameAhead(l: L.State, l': L.State) {
    && l'.waiting == l.waiting && |l'.updaters| <= 1 && l'.capacity == l.capacity
    && l'.applied == l.applied && l'.registered == l.registered
    && Counted(l') == Counted(l) && Ahead(l') == Ahead(l)
    && (|l'.updaters| == 1 && l'.updaters[0].Inside() ==> |l.updaters| == 1 && l.updaters[0].Inside())
  }

  lemma ReadsAhead(l: L.State)
    requires |l.updaters| == 1 && L.Enabled(l, L.Read(0))
    ensures SameAhead(l, L.Do(l, L.Read(0)))
  {
    assert Counted(L.Do(l, L.Read(0))) == Counted(l);
  }

  lemma WritesAhead(l: L.State)
    requires |l.updaters| == 1 && L.Enabled(l, L.NestedWrite(0))
    ensures SameAhead(l, L.Do(l, L.NestedWrite(0)))
  {
    assert Counted(L.Do(l, L.NestedWrite(0))) == Counted(l);
  }

  lemma PassesAhead(l: L.State, a: L.Action)
    requires |l.updaters| == 1 && L.Enabled(l, a)
    requires a.GetCopy? || a.LoadCount? || a.ReloadCount? || a.PublishCopy?
    ensures SameAhead(l, L.Do(l, a))
  {
    assert Counted(L.Do(l, a)) == Counted(l);
  }

  /** Neither reading the queue, nor writing a nested call to it, nor anything else an updater does
      changes what is ahead. */
  lemma SoloGoesOn(l0: L.State, f: Callback, l: L.State, a: L.Action)
    requires Solo(l0, f, l) && L.Enabled(l, a)
    requires !a.FetchAdd? && !a.Invoke? && !a.NestedFetchAdd? && !a.Resign?
    ensures Solo(l0, f, L.Do(l, a))
  {
    assert |l.updaters| == 1;
    if a.Read? {
      ReadsAhead(l);
    } else if a.NestedWrite? {
      WritesAhead(l);
    } else {
      PassesAhead(l, a);
    }
    hide Ahead, Counted, Serve, L.Do;
  }

  lemma SoloResigns(l0: L.State, f: Callback, l: L.State)
    requires Solo(l0, f, l) && L.SingleUpdater(l) && L.Enabled(l, L.Resign(0))
    ensures Solo(l0, f, L.Do(l, L.Resign(0)))
  {
    assert Counted(L.Do(l, L.Resign(0))) == Counted(l) == l.queue;
    assert Ahead(L.Do(l, L.Resign(0))) == Ahead(l);
  }

  lemma SoloStep(l0: L.State, f: Callback, l: L.State, a: L.Action)
    requires Solo(l0, f, l) && L.SingleUpdater(l) && L.Enabled(l, a) && !a.FetchAdd?
    ensures Solo(l0, f, L.Do(l, a))
  {
    match a
    case Invoke(_) => SoloInvokes(l0, f, l);
    case NestedFetchAdd(_) => SoloRegisters(l0, f, l);
    case Resign(_) => SoloResigns(l0, f, l);
    case _ => SoloGoesOn(l0, f, l, a);
  }

  lemma {:induction false} SoloRun(s: State, f: Callback, actions: seq<Action>)
    requires Reachable(s) && s.ledger.updateCnt == 0
    requires Run(Do(s, UpdateStep(L.FetchAdd(f))), actions) && Closed(actions)
    ensures Solo(s.ledger, f, After(Do(s, UpdateStep(L.FetchAdd(f))), actions).ledger)
  {
    var s1 := Do(s, UpdateStep(L.FetchAdd(f)));
    if actions == [] {
      ReachableLedger(s);
      L.Settled(s.ledger);
      SoloBegins(s.ledger, f);
    } else {
      var front, a := actions[..|actions| - 1], actions[|actions| - 1];
      assert a in actions && forall b :: b in front ==> b in actions;
      SoloRun(s, f, front);
      Guarantees.AfterOne(s, UpdateStep(L.FetchAdd(f)));
      ReachableAfter(s1, front);
      ReachableJoined(After(s1, front));
      if a.UpdateStep? {
        SoloStep(s.ledger, f, After(s1, front).ledger, a.u);
      }
    }
  }

  lemma {:induction false} RunAllConcat(initial: T, a: seq<T -> T>, b: seq<T -> T>)
    ensures RunAll(initial, a + b) == RunAll(RunAll(initial, a), b)
  {
    if b == [] {
      assert a + b == a;
    } else {
      assert (a + b)[..|a + b| - 1] == a + b[..|b| - 1];
      RunAllConcat(initial, a, b[..|b| - 1]);
    }
  }

  lemma SameRest(a: seq<Callback>, b: seq<Callback>, c: seq<Callback>)
    requires a + b == a + c
    ensures b == c
  {
    assert (a + b)[|a|..] == b && (a + c)[|a|..] == c;
  }

  lemma SoloSettled(l0: L.State, f: Callback, l: L.State)
    requires Solo(l0, f, l) && l.updaters == [] && l.queue == []
    ensures CallbacksOf(l.applied[|l0.applied|..]) == Serve([f])
    ensures Effects(l.applied) == Effects(l0.applied) + Transformers(Serve([f]))
    ensures l.registered == l0.registered + l.applied[|l0.applied|..]
  {
    assert Ahead(l) == [];
    var before, since := l.applied[..|l0.applied|], l.applied[|l0.applied|..];
    assert before == l0.applied && l.applied == before + since;
    CallbacksConcat(before, since);
    assert CallbacksOf(before + since) == CallbacksOf(before) + Serve([f]);
    hide Serve, Ahead;
    SameRest(CallbacksOf(before), CallbacksOf(since), Serve([f]));
    assert Effects(l.applied) == Effects(before) + Transformers(CallbacksOf(since));
  }

  /** The callbacks of the tree of `f` have been registered, applied and published in the order of `Serve`,
      each of them once, and no others. */
  ghost predicate Served(s: State, f: Callback, s': State) {
    && s.ledger.applied <= s'.ledger.applied
    && CallbacksOf(s'.ledger.applied[|s.ledger.applied|..]) == Serve([f])
    && s'.ledger.registered == s.ledger.registered + s'.ledger.applied[|s.ledger.applied|..]
    && s.mem.ptr in s.mem.heap && s'.mem.ptr in s'.mem.heap
    && s'.mem.heap[s'.mem.ptr] == RunAll(s.mem.heap[s.mem.ptr], Transformers(Serve([f])))
  }

  lemma ServedAtRest(s: State, f: Callback, s': State)
    requires Reachable(s) && s.ledger.updateCnt == 0 && Reachable(s') && s'.ledger.updateCnt == 0
    requires Solo(s.ledger, f, s'.ledger) && s'.mem.initial == s.mem.initial
    ensures Served(s, f, s')
  {
    ReachableLedger(s');
    L.Settled(s'.ledger);
    SoloSettled(s.ledger, f, s'.ledger);
    Guarantees.QuiescentValue(s);
    Guarantees.QuiescentValue(s');
    RunAllConcat(s.mem.initial, Effects(s.ledger.applied), Transformers(Serve([f])));
  }

  /** A call of `update` that nobody interferes with, whatever readers do: once the updater has resigned,
      the tree of its callback has been served and nothing else. It never waits for anybody, and it cannot
      block itself if the tree has no more nested calls than the queue has places. With one more it can
      (`Liveness.SelfDeadlock`). */
  lemma UpdateAlone(s: State, f: Callback, actions: seq<Action>)
    requires Reachable(s) && s.ledger.updateCnt == 0
    requires Run(Do(s, UpdateStep(L.FetchAdd(f))), actions) && Closed(actions)
    ensures var s' := After(Do(s, UpdateStep(L.FetchAdd(f))), actions);
      && s'.ledger.waiting == []
      && (s'.ledger.updateCnt == 0 ==> Served(s, f, s'))
      && (Nodes(f) <= s.ledger.capacity + 1 ==> !Stuck(s'))
  {
    hide Reachable;
    var s1 := Do(s, UpdateStep(L.FetchAdd(f)));
    var s' := After(s1, actions);
    SoloRun(s, f, actions);
    Guarantees.AfterOne(s, UpdateStep(L.FetchAdd(f)));
    ReachableAfter(s1, actions);
    Guarantees.InitialStays(s1, actions);
    if s'.ledger.updateCnt == 0 {
      ServedAtRest(s, f, s');
    }
    if Nodes(f) <= s.ledger.capacity + 1 {
      SmallTreeFits(s.ledger, f, s'.ledger);
    }
  }

  lemma SmallTreeFits(l0: L.State, f: Callback, l: L.State)
    requires Solo(l0, f, l) && Nodes(f) <= l0.capacity + 1
    ensures |l.updaters| == 1 && l.updaters[0].phase.Writing? ==> |l.queue| < l.capacity
  {
    assert |CallbacksOf(l.applied) + Serve(Ahead(l))| == |CallbacksOf(l0.applied) + Serve([f])|;
    assert [f][1..] == [] && NodesAll([f]) == Nodes(f);
  }

  lemma OneNode(f: Callback)
    requires f.nested == []
    ensures Serve([f]) == [f] && Nodes(f) == 1
  {
    assert [f][1..] + f.nested == [];
  }
}
