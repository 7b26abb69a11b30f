/** The registration side of the protocol: `m_updateCnt`, which is lock and work count in one, the
    queue of updates, and the control flow of `update` and `do_updates` between accesses to them. */
module Ledger {
  import opened Callbacks

  type Positive = n: int | 0 < n witness 1

  /** The next shared access, or the next use of the private copy, of a thread inside
      `try_register`, the invocation of a callback, or `do_updates`. */
  datatype Phase =
    | Elected
    | Running(call: Call)
    | Nested(todo: seq<Callback>)
    | Writing(call: Call, todo: seq<Callback>)
    | Load
    | Drain
    | Reload
    | Publish
    | Retire
    | Recopy

  /** A thread elected as updater: the call that was elected, the local variables `done`, `updateCnt`
      and `unflushed` of `do_updates` (`done` is 0 until the elected call's own callback returned),
      and whether it has not published anything yet. */
  datatype Updater = Updater(own: Call, phase: Phase, done: nat, count: nat, unflushed: nat, first: bool)
  {
    predicate Inside() {
      phase.Nested? || phase.Writing?
    }

    /** The call whose callback is to be invoked next. */
    function InHand(): seq<Call> {
      if phase.Elected? then [own] else if phase.Running? then [phase.call] else []
    }

    /** The nested call that is counted but not yet in the queue. */
    function Unwritten(): seq<Call> {
      if phase.Writing? then [phase.call] else []
    }
  }

  datatype State = State(
    threshold: nat,
    capacity: Positive,
    updateCnt: nat,
    queue: seq<Call>,
    // Threads: elected ones, and those between their `fetch_add` and their `blockingWrite`.
    updaters: seq<Updater>,
    waiting: seq<Call>,
    // History: calls in the order of their `fetch_add`, calls in the order their callbacks ran, how
    // many of these are published, and calls that have returned.
    registered: seq<Call>,
    applied: seq<Call>,
    published: nat,
    returned: seq<Call>)

  datatype Action =
    | FetchAdd(callback: Callback)
    | Enqueue(i: nat)
    | GetCopy(k: nat)
    | Invoke(k: nat)
    | NestedFetchAdd(k: nat)
    | NestedWrite(k: nat)
    | LoadCount(k: nat)
    | Read(k: nat)
    | ReloadCount(k: nat)
    | PublishCopy(k: nat)
    | Resign(k: nat)

  function Init(threshold: nat, capacity: Positive): State {
    State(threshold, capacity, 0, [], [], [], [], [], 0, [])
  }

  /** Where `do_updates` goes from the head of its inner loop (lines 173 to 187). */
  function Settle(threshold: nat, u: Updater): Updater {
    if 0 < u.unflushed == threshold then u.(phase := Publish)
    else if u.done < u.count then u.(phase := Drain)
    else if u.unflushed == threshold then u.(phase := Publish)
    else u.(phase := Reload)
  }

  /** A callback goes on to its next nested call of `update`, or returns. */
  function Continue(threshold: nat, u: Updater, todo: seq<Callback>): Updater {
    if todo != [] then u.(phase := Nested(todo))
    else if u.done == 0 then u.(phase := Load, done := 1)
    else Settle(threshold, u.(done := u.done + 1, unflushed := u.unflushed + 1))
  }

  predicate Enabled(l: State, a: Action) {
    match a
    case FetchAdd(_) => true
    case Enqueue(i) => i < |l.waiting| && |l.queue| < l.capacity
    case GetCopy(k) =>
      k < |l.updaters| && var u := l.updaters[k];
      u.phase.Elected? || u.phase.Recopy? || (u.phase.Retire? && u.done != u.count)
    case Invoke(k) => k < |l.updaters| && l.updaters[k].phase.Running?
    case NestedFetchAdd(k) => k < |l.updaters| && l.updaters[k].phase.Nested? && l.updaters[k].phase.todo != []
    case NestedWrite(k) => k < |l.updaters| && l.updaters[k].phase.Writing? && |l.queue| < l.capacity
    case LoadCount(k) => k < |l.updaters| && l.updaters[k].phase.Load?
    case Read(k) => k < |l.updaters| && l.updaters[k].phase.Drain? && l.queue != []
    case ReloadCount(k) => k < |l.updaters| && l.updaters[k].phase.Reload?
    case PublishCopy(k) => k < |l.updaters| && l.updaters[k].phase.Publish?
    case Resign(k) => k < |l.updaters| && l.updaters[k].phase.Retire? && l.updaters[k].done == l.updaters[k].count
  }

  function Do(l: State, a: Action): State
    requires Enabled(l, a)
  {
    match a
    case FetchAdd(f) =>
      var c := Call(|l.registered|, f);
      var l' := l.(registered := l.registered + [c], updateCnt := l.updateCnt + 1);
      if l.updateCnt == 0 then l'.(updaters := l.updaters + [Updater(c, Elected, 0, 0, 0, true)])
      else l'.(waiting := l.waiting + [c])
    case Enqueue(i) =>
      l.(queue := l.queue + [l.waiting[i]], waiting := l.waiting[..i] + l.waiting[i + 1..],
         returned := l.returned + [l.waiting[i]])
    case GetCopy(k) =>
      var u := l.updaters[k];
      var u' := if u.phase.Elected? then u.(phase := Running(u.own)) else Settle(l.threshold, u.(unflushed := 0));
      l.(updaters := l.updaters[k := u'])
    case Invoke(k) =>
      var u := l.updaters[k];
      l.(applied := l.applied + [u.phase.call],
         updaters := l.updaters[k := Continue(l.threshold, u, u.phase.call.callback.nested)])
    case NestedFetchAdd(k) =>
      var u := l.updaters[k];
      var c := Call(|l.registered|, u.phase.todo[0]);
      var l' := l.(registered := l.registered + [c], updateCnt := l.updateCnt + 1);
      if l.updateCnt == 0 then l'.(updaters := l.updaters + [Updater(c, Elected, 0, 0, 0, true)])
      else l'.(updaters := l.updaters[k := u.(phase := Writing(c, u.phase.todo[1..]))])
    case NestedWrite(k) =>
      var u := l.updaters[k];
      l.(queue := l.queue + [u.phase.call], returned := l.returned + [u.phase.call],
         updaters := l.updaters[k := Continue(l.threshold, u, u.phase.todo)])
    case LoadCount(k) =>
      l.(updaters := l.updaters[k := Settle(l.threshold, l.updaters[k].(count := l.updateCnt))])
    case Read(k) =>
      l.(queue := l.queue[1..], updaters := l.updaters[k := l.updaters[k].(phase := Running(l.queue[0]))])
    case ReloadCount(k) =>
      var u := l.updaters[k].(count := l.updateCnt);
      l.(updaters := l.updaters[k := if u.done != u.count then Settle(l.threshold, u) else u.(phase := Publish)])
    case PublishCopy(k) =>
      l.(published := |l.applied|, updaters := l.updaters[k := l.updaters[k].(phase := Retire, first := false)])
    case Resign(k) =>
      var u := l.updaters[k];
      if l.updateCnt == u.count then
        l.(updateCnt := 0, updaters := l.updaters[..k] + l.updaters[k + 1..], returned := l.returned + [u.own])
      else
        l.(updaters := l.updaters[k := u.(count := l.updateCnt, phase := Recopy)])
  }

  // ---------------------------------------------------------------------------------------------
  // The line: calls in the order in which they are served.

  function Line(l: State): seq<Call> {
    l.applied + (if |l.updaters| == 1 then l.updaters[0].InHand() else []) + l.queue
  }

  /** Calls that are counted but have no place in the line yet. */
  function Outside(l: State): seq<Call> {
    l.waiting + (if |l.updaters| == 1 then l.updaters[0].Unwritten() else [])
  }

  /** The counter is a lock: exactly when it is positive there is an updater, and there is one. */
  ghost predicate SingleUpdater(l: State) {
    && |l.updaters| <= 1
    && (l.updateCnt > 0 <==> |l.updaters| == 1)
  }

  ghost predicate Conserved(l: State) {
    multiset(Line(l)) + multiset(Outside(l)) == multiset(l.registered)
  }

  ghost predicate Tickets(l: State) {
    && (forall i :: 0 <= i < |l.registered| ==> l.registered[i].ticket == i)
    && |l.queue| <= l.capacity
  }

  /** A call that returned, and the updater's own call, have a place in the line. */
  ghost predicate InLine(l: State) {
    && (forall c :: c in l.returned ==> c in Line(l))
    && (forall u :: u in l.updaters ==> u.own in Line(l))
  }

  /** The elected call returns by resigning and in no other way. */
  ghost predicate Unanswered(l: State) {
    forall u :: u in l.updaters ==> u.own !in l.returned
  }

  /** Inside a callback, the calls still to be made are the last ones its definition lists, and the
      enclosing call is the one applied last. */
  ghost predicate Enclosed(l: State) {
    |l.updaters| == 1 && l.updaters[0].Inside() ==>
      && l.applied != []
      && var nested := l.applied[|l.applied| - 1].callback.nested;
         var p := l.updaters[0].phase;
         && |p.todo| <= |nested|
         && p.todo == nested[|nested| - |p.todo|..]
         && (p.Writing? ==> |p.todo| < |nested| && nested[|nested| - |p.todo| - 1] == p.call.callback)
  }

  /** The counter is a work count: with `done` it says how much of the work has been applied. */
  ghost predicate Count(l: State) {
    if |l.updaters| == 1 then
      var u := l.updaters[0];
      u.done + (if u.Inside() then 1 else 0) + |l.registered| == |l.applied| + l.updateCnt
    else
      |l.applied| == |l.registered|
  }

  ghost predicate Control(l: State, u: Updater) {
    && (u.done == 0 ==> u.first && u.unflushed == 0 && (u.phase.Elected? || u.phase.Running? || u.Inside()))
    && (u.done > 0 && !u.phase.Load? ==> u.done <= u.count <= l.updateCnt)
    && match u.phase
       case Elected => u.done == 0
       case Running(c) => if u.done == 0 then c == u.own else u.done < u.count
       case Nested(todo) => todo != [] && (u.done == 0 || u.done < u.count)
       case Writing(_, _) => u.done == 0 || u.done < u.count
       case Load => u.done == 1 && u.first && u.unflushed == 0
       case Drain => u.done < u.count
       case Reload => u.done == u.count
       case Publish => true
       case Retire => true
       case Recopy => u.done < u.count
  }

  /** Between two publications: how much is applied and not published. */
  ghost predicate Batch(l: State, u: Updater) {
    if u.phase.Retire? || u.phase.Recopy? then
      |l.applied| == l.published && !u.first
    else
      && |l.applied| == l.published + u.unflushed + (if u.Inside() then 1 else 0) + (if u.first && u.done > 0 then 1 else 0)
      && (l.threshold > 0 ==> if u.phase.Publish? then u.unflushed <= l.threshold else u.unflushed < l.threshold)
      && (u.phase.Publish? || u.phase.Reload? ==> u.first || u.unflushed > 0)
      && (u.phase.Reload? ==> u.unflushed != l.threshold)
  }

  ghost predicate Updating(l: State) {
    if |l.updaters| == 1 then Control(l, l.updaters[0]) && Batch(l, l.updaters[0])
    else l.published == |l.applied|
  }

  ghost predicate Inv(l: State) {
    && SingleUpdater(l)
    && Conserved(l)
    && Tickets(l)
    && InLine(l)
    && Count(l)
    && Updating(l)
    && Unanswered(l)
    && Enclosed(l)
  }

  lemma InitInv(threshold: nat, capacity: Positive)
    ensures Inv(Init(threshold, capacity))
  {
  }

  /** At any time there are as many calls as places for them. */
  lemma Sizes(l: State)
    requires Conserved(l)
    ensures |l.registered| == |Line(l)| + |Outside(l)|
  {
    assert |multiset(l.registered)| == |multiset(Line(l))| + |multiset(Outside(l))|;
  }

  lemma Settled(l: State)
    requires SingleUpdater(l) && Conserved(l) && Count(l) && l.updaters == []
    ensures l.queue == [] && l.waiting == [] && Line(l) == l.applied
  {
    Sizes(l);
  }

  lemma KeepsSingleUpdater(l: State, a: Action)
    requires SingleUpdater(l) && Updating(l) && Enabled(l, a)
    ensures SingleUpdater(Do(l, a))
  {
  }

  lemma KeepsCount(l: State, a: Action)
    requires SingleUpdater(l) && Count(l) && Updating(l) && Enabled(l, a)
    ensures Count(Do(l, a))
  {
  }

  /** Where a callback that continues leaves the updater. */
  lemma ContinueKeeps(l: State, u: Updater, l': State, todo: seq<Callback>)
    requires Control(l, u) && (u.phase.Running? || u.phase.Writing?)
    requires Batch(l, u)
    requires l'.threshold == l.threshold && l'.published == l.published && l'.updateCnt == l.updateCnt
    requires |l'.applied| == |l.applied| + if u.phase.Running? then 1 else 0
    ensures var u' := Continue(l.threshold, u, todo); Control(l', u') && Batch(l', u')
  {
  }

  lemma SettleKeeps(l: State, u: Updater)
    requires u.done > 0 && u.done <= u.count <= l.updateCnt && (u.unflushed == 0 ==> u.first || u.done < u.count)
    requires |l.applied| == l.published + u.unflushed + (if u.first then 1 else 0)
    requires l.threshold > 0 ==> u.unflushed < l.threshold
    ensures var u' := Settle(l.threshold, u); Control(l, u') && Batch(l, u')
  {
  }

  ghost predicate UpdaterOk(l: State) {
    |l.updaters| == 1 ==> Control(l, l.updaters[0]) && Batch(l, l.updaters[0])
  }

  lemma OutsideKeeps(l: State, a: Action)
    requires SingleUpdater(l) && Updating(l) && Enabled(l, a) && (a.FetchAdd? || a.Enqueue?)
    ensures UpdaterOk(Do(l, a))
  {
  }

  lemma SettlingKeeps(l: State, a: Action)
    requires SingleUpdater(l) && Updating(l) && Enabled(l, a) && (a.GetCopy? || a.LoadCount? || a.ReloadCount?)
    ensures UpdaterOk(Do(l, a))
  {
    var u := l.updaters[0];
    if a.GetCopy? && !u.phase.Elected? {
      SettleKeeps(Do(l, a), u.(unflushed := 0));
    } else if a.LoadCount? {
      SettleKeeps(Do(l, a), u.(count := l.updateCnt));
    } else if a.ReloadCount? && u.done != l.updateCnt {
      SettleKeeps(Do(l, a), u.(count := l.updateCnt));
    }
  }

  lemma CallbackKeeps(l: State, a: Action)
    requires SingleUpdater(l) && Updating(l) && Enabled(l, a) && (a.Invoke? || a.NestedWrite?)
    ensures UpdaterOk(Do(l, a))
  {
    var u := l.updaters[0];
    ContinueKeeps(l, u, Do(l, a), if a.Invoke? then u.phase.call.callback.nested else u.phase.todo);
  }

  lemma OthersKeep(l: State, a: Action)
    requires SingleUpdater(l) && Updating(l) && Enabled(l, a)
    requires a.NestedFetchAdd? || a.Read? || a.PublishCopy? || a.Resign?
    ensures UpdaterOk(Do(l, a))
  {
  }

  lemma KeepsUpdating(l: State, a: Action)
    requires SingleUpdater(l) && Updating(l) && Enabled(l, a)
    ensures Updating(Do(l, a))
  {
    KeepsSingleUpdater(l, a);
    match a
    case FetchAdd(_) => OutsideKeeps(l, a);
    case Enqueue(_) => OutsideKeeps(l, a);
    case GetCopy(_) => SettlingKeeps(l, a);
    case LoadCount(_) => SettlingKeeps(l, a);
    case ReloadCount(_) => SettlingKeeps(l, a);
    case Invoke(_) => CallbackKeeps(l, a);
    case NestedWrite(_) => CallbackKeeps(l, a);
    case _ => OthersKeep(l, a);
  }

  /** The call that gets its place in the line by this action. */
  function Served(l: State, a: Action): seq<Call>
    requires Enabled(l, a)
  {
    match a
    case FetchAdd(f) => if l.updateCnt == 0 then [Call(|l.registered|, f)] else []
    case Enqueue(i) => [l.waiting[i]]
    case NestedWrite(k) => [l.updaters[k].phase.call]
    case _ => []
  }

  /** The action leaves the line as it is or puts one call at its end, and no call gets lost. */
  ghost predicate Serves(l: State, a: Action)
    requires Enabled(l, a)
  {
    && Line(Do(l, a)) == Line(l) + Served(l, a)
    && multiset(Outside(Do(l, a))) + multiset(Served(l, a)) + multiset(l.registered)
       == multiset(Outside(l)) + multiset(Do(l, a).registered)
  }

  lemma FetchAddServes(l: State, f: Callback)
    requires SingleUpdater(l) && Conserved(l) && Count(l)
    ensures Serves(l, FetchAdd(f))
  {
    var l' := Do(l, FetchAdd(f));
    if l.updaters == [] {
      Settled(l);
      assert Line(l') == Line(l) + Served(l, FetchAdd(f));
      assert Outside(l') == Outside(l);
    } else {
      assert Line(l') == Line(l);
      assert l'.waiting == l.waiting + [Call(|l.registered|, f)];
    }
  }

  lemma EnqueueServes(l: State, i: nat)
    requires SingleUpdater(l) && Enabled(l, Enqueue(i))
    ensures Serves(l, Enqueue(i))
  {
    var l' := Do(l, Enqueue(i));
    var c := l.waiting[i];
    assert Line(l') == Line(l) + [c];
    assert l.waiting == l.waiting[..i] + [c] + l.waiting[i + 1..];
    assert multiset(l.waiting) == multiset(l'.waiting) + multiset{c};
    var unwritten := if |l.updaters| == 1 then l.updaters[0].Unwritten() else [];
    assert Outside(l) == l.waiting + unwritten && Outside(l') == l'.waiting + unwritten;
  }

  lemma InvokeServes(l: State)
    requires SingleUpdater(l) && Enabled(l, Invoke(0))
    ensures Serves(l, Invoke(0))
  {
    assert l.updaters[0].InHand() == [l.updaters[0].phase.call];
    assert Do(l, Invoke(0)).updaters[0].InHand() == [];
    assert Outside(Do(l, Invoke(0))) == Outside(l);
  }

  lemma ReadServes(l: State)
    requires SingleUpdater(l) && Enabled(l, Read(0))
    ensures Serves(l, Read(0))
  {
    assert l.queue == [l.queue[0]] + l.queue[1..];
    assert Outside(Do(l, Read(0))) == Outside(l);
  }

  lemma NestedFetchAddServes(l: State)
    requires SingleUpdater(l) && Enabled(l, NestedFetchAdd(0))
    ensures Serves(l, NestedFetchAdd(0))
  {
    var l' := Do(l, NestedFetchAdd(0));
    assert Line(l') == Line(l);
    assert Outside(l') == Outside(l) + [l'.updaters[0].phase.call];
  }

  lemma NestedWriteServes(l: State)
    requires SingleUpdater(l) && Enabled(l, NestedWrite(0))
    ensures Serves(l, NestedWrite(0))
  {
    var l' := Do(l, NestedWrite(0));
    assert l'.updaters[0].InHand() == [] && l'.updaters[0].Unwritten() == [];
    assert Line(l') == Line(l) + Served(l, NestedWrite(0));
    assert Outside(l) == Outside(l') + Served(l, NestedWrite(0));
  }

  lemma ResignServes(l: State)
    requires SingleUpdater(l) && Enabled(l, Resign(0))
    ensures Serves(l, Resign(0))
  {
    assert Line(Do(l, Resign(0))) == Line(l);
    assert Outside(Do(l, Resign(0))) == Outside(l);
  }

  lemma PassServes(l: State, a: Action)
    requires SingleUpdater(l) && Enabled(l, a)
    requires a.GetCopy? || a.LoadCount? || a.ReloadCount? || a.PublishCopy?
    ensures Serves(l, a)
  {
    assert Do(l, a).updaters[0].InHand() == l.updaters[0].InHand();
    assert Do(l, a).updaters[0].Unwritten() == l.updaters[0].Unwritten();
  }

  /** Nobody is ever overtaken. */
  lemma LineOnlyGrows(l: State, a: Action)
    requires SingleUpdater(l) && Conserved(l) && Count(l) && Enabled(l, a)
    ensures Serves(l, a)
  {
    match a
    case FetchAdd(f) => FetchAddServes(l, f);
    case Enqueue(i) => EnqueueServes(l, i);
    case Invoke(_) => InvokeServes(l);
    case Read(_) => ReadServes(l);
    case NestedFetchAdd(_) => NestedFetchAddServes(l);
    case NestedWrite(_) => NestedWriteServes(l);
    case Resign(_) => ResignServes(l);
    case _ => PassServes(l, a);
  }

  lemma OwnersInLine(l: State, a: Action)
    requires SingleUpdater(l) && InLine(l) && Enabled(l, a)
    ensures forall u :: u in Do(l, a).updaters ==> u.own in Line(l) + Served(l, a)
  {
    if |l.updaters| == 1 {
      assert l.updaters[0] in l.updaters;
      OwnerStays(l, a);
    } else if a.FetchAdd? {
      assert Do(l, a).updaters == [Updater(Call(|l.registered|, a.callback), Elected, 0, 0, 0, true)];
    } else {
      assert Do(l, a).updaters == [];
    }
  }

  lemma ReturnedInLine(l: State, a: Action)
    requires SingleUpdater(l) && InLine(l) && Enabled(l, a)
    ensures forall c :: c in Do(l, a).returned ==> c in Line(l) + Served(l, a)
  {
    if l.updaters != [] {
      assert l.updaters[0] in l.updaters;
    }
  }

  lemma KeepsInLine(l: State, a: Action)
    requires SingleUpdater(l) && Conserved(l) && Count(l) && InLine(l) && Enabled(l, a)
    ensures InLine(Do(l, a))
  {
    LineOnlyGrows(l, a);
    OwnersInLine(l, a);
    ReturnedInLine(l, a);
  }

  lemma KeepsTickets(l: State, a: Action)
    requires Tickets(l) && Enabled(l, a)
    ensures Tickets(Do(l, a))
  {
  }

  lemma Rebalance(line: multiset<Call>, served: multiset<Call>, outside: multiset<Call>, outside': multiset<Call>,
                  registered: multiset<Call>, registered': multiset<Call>)
    requires line + outside == registered
    requires outside' + served + registered == outside + registered'
    ensures line + served + outside' == registered'
  {
    forall c ensures (line + served + outside')[c] == registered'[c] {
      assert (outside' + served + registered)[c] == (outside + registered')[c];
      assert (line + outside)[c] == registered[c];
    }
  }

  lemma KeepsConserved(l: State, a: Action)
    requires SingleUpdater(l) && Conserved(l) && Count(l) && Enabled(l, a)
    ensures Conserved(Do(l, a))
  {
    var l' := Do(l, a);
    LineOnlyGrows(l, a);
    Rebalance(multiset(Line(l)), multiset(Served(l, a)), multiset(Outside(l)), multiset(Outside(l')),
              multiset(l.registered), multiset(l'.registered));
    assert multiset(Line(l')) == multiset(Line(l)) + multiset(Served(l, a));
  }

  /** No call occurs twice in the registration order, hence none occurs twice anywhere. */
  lemma {:induction false} OnceRegistered(calls: seq<Call>, c: Call)
    requires forall i :: 0 <= i < |calls| ==> calls[i].ticket == i
    ensures multiset(calls)[c] <= 1
  {
    if calls != [] {
      var front := calls[..|calls| - 1];
      assert calls == front + [calls[|calls| - 1]];
      OnceRegistered(front, c);
    }
  }

  lemma Apart(l: State, c: Call, d: Call)
    requires Conserved(l) && Tickets(l) && c in Line(l) && d in Outside(l)
    ensures c != d
  {
    OnceRegistered(l.registered, c);
    assert multiset(l.registered)[c] == multiset(Line(l))[c] + multiset(Outside(l))[c];
  }

  lemma Fresh(l: State, c: Call)
    requires Conserved(l) && Tickets(l) && c in Line(l)
    ensures c in l.registered && c.ticket < |l.registered|
  {
    assert multiset(l.registered)[c] >= multiset(Line(l))[c] > 0;
  }

  lemma ElectionUnanswered(l: State, a: Action)
    requires SingleUpdater(l) && Conserved(l) && Tickets(l) && InLine(l) && Enabled(l, a) && l.updaters == []
    ensures Unanswered(Do(l, a))
  {
    forall c | c in l.returned ensures c.ticket < |l.registered| {
      Fresh(l, c);
    }
  }

  lemma OwnerStays(l: State, a: Action)
    requires SingleUpdater(l) && Enabled(l, a) && |l.updaters| == 1
    ensures forall u :: u in Do(l, a).updaters ==> u.own == l.updaters[0].own
  {
  }

  /** The only call that an updater at work returns on behalf of others has been outside the line. */
  lemma OthersReturn(l: State, a: Action)
    requires SingleUpdater(l) && Enabled(l, a) && |l.updaters| == 1 && |Do(l, a).updaters| == 1
    ensures forall c :: c in Do(l, a).returned ==> c in l.returned || c in Outside(l)
  {
    if a.NestedWrite? {
      assert l.updaters[0].Unwritten() == [l.updaters[0].phase.call];
    }
  }

  lemma OutsideRegistered(l: State, c: Call)
    requires Conserved(l) && Tickets(l) && c in l.waiting
    ensures c.ticket < |l.registered| && l.registered[c.ticket] == c
  {
    assert c in Outside(l);
    assert multiset(l.registered)[c] >= multiset(Outside(l))[c] > 0;
    assert c in l.registered;
  }

  lemma KeepsUnanswered(l: State, a: Action)
    requires SingleUpdater(l) && Conserved(l) && Tickets(l) && InLine(l) && Unanswered(l) && Enabled(l, a)
    ensures Unanswered(Do(l, a))
  {
    if l.updaters == [] {
      ElectionUnanswered(l, a);
    } else if |Do(l, a).updaters| == 1 {
      assert l.updaters[0] in l.updaters;
      OwnerStays(l, a);
      OthersReturn(l, a);
      forall c | c in Outside(l) ensures c != l.updaters[0].own {
        Apart(l, l.updaters[0].own, c);
      }
    } else {
      assert Do(l, a).updaters == [];
    }
  }

  lemma CallbackKeepsEnclosed(l: State, a: Action)
    requires SingleUpdater(l) && Enclosed(l) && Enabled(l, a) && (a.Invoke? || a.NestedFetchAdd? || a.NestedWrite?)
    ensures Enclosed(Do(l, a))
  {
  }

  lemma KeepsEnclosed(l: State, a: Action)
    requires SingleUpdater(l) && Enclosed(l) && Enabled(l, a)
    ensures Enclosed(Do(l, a))
  {
    if a.Invoke? || a.NestedFetchAdd? || a.NestedWrite? {
      CallbackKeepsEnclosed(l, a);
    } else if |Do(l, a).updaters| == 1 && Do(l, a).updaters[0].Inside() {
      assert |l.updaters| == 1 && l.updaters[0] == Do(l, a).updaters[0];
    }
  }

  lemma Preserves(l: State, a: Action)
    requires Inv(l) && Enabled(l, a)
    ensures Inv(Do(l, a))
  {
    KeepsSingleUpdater(l, a);
    KeepsConserved(l, a);
    KeepsTickets(l, a);
    KeepsInLine(l, a);
    KeepsCount(l, a);
    KeepsUpdating(l, a);
    KeepsUnanswered(l, a);
    KeepsEnclosed(l, a);
  }

  // ---------------------------------------------------------------------------------------------
  // Consequences.

  ghost predicate Prefix(a: seq<Call>, b: seq<Call>) {
    |a| <= |b| && b[..|a|] == a
  }

  /** Nothing that has been applied, registered, lined up or published is ever taken back. */
  ghost predicate Grown(l: State, l': State) {
    && Prefix(l.applied, l'.applied)
    && Prefix(l.registered, l'.registered)
    && Prefix(Line(l), Line(l'))
    && l.published <= l'.published
  }

  lemma HistoryGrows(l: State, a: Action)
    requires SingleUpdater(l) && Updating(l) && Enabled(l, a)
    ensures Prefix(l.applied, Do(l, a).applied)
    ensures Prefix(l.registered, Do(l, a).registered)
    ensures l.published <= Do(l, a).published
  {
  }

  lemma Grows(l: State, a: Action)
    requires Inv(l) && Enabled(l, a)
    ensures Grown(l, Do(l, a))
  {
    HistoryGrows(l, a);
    LineOnlyGrows(l, a);
  }

  lemma GrownTransitive(l: State, l': State, l'': State)
    requires Grown(l, l') && Grown(l', l'')
    ensures Grown(l, l'')
  {
    PrefixTransitive(l.applied, l'.applied, l''.applied);
    PrefixTransitive(l.registered, l'.registered, l''.registered);
    PrefixTransitive(Line(l), Line(l'), Line(l''));
  }

  lemma PrefixTransitive(a: seq<Call>, b: seq<Call>, c: seq<Call>)
    requires Prefix(a, b) && Prefix(b, c)
    ensures Prefix(a, c)
  {
    assert c[..|a|] == c[..|b|][..|a|];
  }

  /** The exchange of the counter for 0 succeeds exactly when all calls have been applied, and then
      nothing is left anywhere. */
  lemma ResignOutcome(l: State)
    requires SingleUpdater(l) && Conserved(l) && Count(l) && Updating(l) && Enabled(l, Resign(0))
    ensures l.updateCnt == l.updaters[0].count <==> multiset(l.applied) == multiset(l.registered)
    ensures l.updateCnt == l.updaters[0].count ==>
      l.queue == [] && l.waiting == [] && l.published == |l.applied| == |l.registered|
  {
    Sizes(l);
    assert |multiset(l.applied)| == |l.applied| && |multiset(l.registered)| == |l.registered|;
    if l.updateCnt == l.updaters[0].count {
      assert Line(l) == l.applied && Outside(l) == [];
    }
  }

  lemma AppliedDistinct(l: State, i: nat, j: nat)
    requires Conserved(l) && Tickets(l) && i < j < |l.applied|
    ensures l.applied[i] != l.applied[j] && l.applied[i] in l.registered && l.applied[j] in l.registered
  {
    var line := Line(l);
    assert line[i] == l.applied[i] && line[j] == l.applied[j];
    OnceRegistered(l.registered, line[i]);
    assert line == line[..j] + [line[j]] + line[j + 1..];
    assert line[i] in line[..j];
    Fresh(l, line[i]);
    Fresh(l, line[j]);
  }

  /** A call that had a place in the line comes before every call registered later. */
  lemma LinedUpFirst(l: State, l': State, c: Call, j: nat) returns (i: nat)
    requires Conserved(l) && Tickets(l) && c in Line(l) && Prefix(Line(l), Line(l'))
    requires j < |l'.applied| && |l.registered| <= l'.applied[j].ticket
    ensures i < j && l'.applied[i] == c
  {
    i :| 0 <= i < |Line(l)| && Line(l)[i] == c;
    assert l'.applied[j] == Line(l')[j];
    if j < |Line(l)| {
      Fresh(l, Line(l)[j]);
    }
    assert Line(l')[i] == Line(l)[i];
  }
}
