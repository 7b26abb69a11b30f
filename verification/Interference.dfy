/** The other threads: which steps they can take while one thread is inside a method of the cell, what
    their steps leave unchanged, and the record of who did what. */
module Interference {
  import opened Callbacks
  import opened System
  import opened Liveness
  import opened Guarantees
  import opened Alone
  import M = Memory
  import L = Ledger

  /** What the thread running a method must be left alone with. */
  datatype Role =
    | Outside
    | Reading(t: M.Tid)
    | Enqueuing(c: Call)
    | Updating

  /** The steps other threads can take. */
  predicate Foreign(role: Role, s: State, a: Action) {
    match role
    case Outside => true
    case Reading(t) => a.ReaderStep? ==> a.r.t != t
    case Enqueuing(c) =>
      a.UpdateStep? && a.u.Enqueue? && a.u.i < |s.ledger.waiting| ==> s.ledger.waiting[a.u.i].ticket != c.ticket
    case Updating => a.ReaderStep? || (a.UpdateStep? && (a.u.FetchAdd? || a.u.Enqueue?))
  }

  /** What the other threads leave unchanged. */
  ghost predicate Undisturbed(role: Role, s: State, s': State) {
    match role
    case Outside => true
    case Reading(t) => s'.mem.ReaderOf(t) == s.mem.ReaderOf(t)
    case Enqueuing(c) => c in s.ledger.waiting ==> c in s'.ledger.waiting
    case Updating =>
      && s'.mem == s.mem.(slots := s'.mem.slots, readers := s'.mem.readers)
      && s'.ledger.updaters == s.ledger.updaters
      && s'.ledger.applied == s.ledger.applied && s'.ledger.published == s.ledger.published
      && |s.ledger.queue| <= |s'.ledger.queue| && s'.ledger.queue[..|s.ledger.queue|] == s.ledger.queue
      && s.mem.slots.Keys <= s'.mem.slots.Keys
  }

  lemma ForeignLeavesUndisturbed(role: Role, s: State, a: Action)
    requires L.SingleUpdater(s.ledger) && Foreign(role, s, a) && Enabled(s, a)
    requires role.Updating? ==> |s.ledger.updaters| == 1
    ensures Undisturbed(role, s, Do(s, a))
  {
  }

  lemma UndisturbedTransitive(role: Role, s: State, s': State, s'': State)
    requires Undisturbed(role, s, s') && Undisturbed(role, s', s'')
    ensures Undisturbed(role, s, s'')
  {
    if role.Updating? {
      assert s''.ledger.queue[..|s'.ledger.queue|][..|s.ledger.queue|] == s''.ledger.queue[..|s.ledger.queue|];
    }
  }

  lemma SameLimits(l: L.State, a: L.Action)
    requires L.Enabled(l, a)
    ensures L.Do(l, a).threshold == l.threshold && L.Do(l, a).capacity == l.capacity
  {
  }

  /** The template and build parameters never change. */
  lemma SameConfiguration(s: State, a: Action)
    requires Enabled(s, a)
    ensures var s' := Do(s, a);
      s'.ledger.threshold == s.ledger.threshold && s'.ledger.capacity == s.ledger.capacity
  {
    if a.UpdateStep? {
      SameLimits(s.ledger, a.u);
    }
  }

  // ---------------------------------------------------------------------------------------------
  // Schedules.

  function Length(schedule: seq<seq<Action>>): nat {
    if schedule == [] then 0 else |schedule[0]| + Length(schedule[1..])
  }

  /** The work that calls from outside bring in. */
  function Brings(batch: seq<Action>, n: nat): nat {
    if batch == [] then 0
    else (if batch[0].UpdateStep? && batch[0].u.FetchAdd? then Weight(batch[0].u.callback, n) + 2 else 0)
         + Brings(batch[1..], n)
  }

  function Reserve(schedule: seq<seq<Action>>, n: nat): nat {
    if schedule == [] then 0 else Brings(schedule[0], n) + Reserve(schedule[1..], n)
  }

  lemma FetchAddCosts(s: State, f: Callback, n: nat)
    requires L.SingleUpdater(s.ledger)
    ensures Fuel(Do(s, UpdateStep(L.FetchAdd(f))), n) <= Fuel(s, n) + Weight(f, n) + 2
  {
    var c := Call(|s.ledger.registered|, f);
    PendingConcat(s.ledger.waiting, [c], 2, n);
    PendingOne(c, 2, n);
    PendingOne(c, 0, n);
  }

  /** No step of other threads adds more work than it brings in. */
  lemma StepCosts(s: State, a: Action, n: nat)
    requires L.SingleUpdater(s.ledger) && L.Updating(s.ledger) && Joined(s) && |s.mem.slots| <= n && Enabled(s, a)
    ensures Fuel(Do(s, a), n) <= Fuel(s, n) + Brings([a], n)
  {
    assert [a][1..] == [];
    if a.UpdateStep? && a.u.FetchAdd? {
      FetchAddCosts(s, a.u.callback, n);
    } else {
      StepBurns(s, a, n);
    }
  }

  /** What a step of another thread means for the thread it interferes with. */
  ghost predicate Harmless(role: Role, s: State, s': State) {
    && Reachable(s') && Follows(s, s') && Undisturbed(role, s, s')
    && s'.mem.concurrency == s.mem.concurrency
    && s'.ledger.threshold == s.ledger.threshold && s'.ledger.capacity == s.ledger.capacity
  }

  lemma ForeignIsHarmless(role: Role, s: State, a: Action)
    requires Reachable(s) && Foreign(role, s, a) && Enabled(s, a)
    requires role.Updating? ==> |s.ledger.updaters| == 1
    ensures Harmless(role, s, Do(s, a))
    ensures |Do(s, a).mem.slots| <= |s.mem.slots| + 1
  {
    ReachableJoined(s);
    ForeignLeavesUndisturbed(role, s, a);
    SameConfiguration(s, a);
    StepFrame(s, a);
    FollowsSelf(s);
    FollowsStep(s, s, a);
    AfterOne(s, a);
  }

  lemma HarmlessTransitive(role: Role, s: State, s': State, s'': State)
    requires Harmless(role, s, s') && Harmless(role, s', s'')
    ensures Harmless(role, s, s'')
  {
    FollowsTransitive(s, s', s'');
    UndisturbedTransitive(role, s, s', s'');
  }

  lemma HarmlessSelf(role: Role, s: State)
    requires Reachable(s)
    ensures Harmless(role, s, s)
  {
    FollowsSelf(s);
  }

  lemma ContinueForgetsPhase(threshold: nat, u: L.Updater, p: L.Phase, todo: seq<Callback>)
    ensures L.Continue(threshold, u.(phase := p), todo) == L.Continue(threshold, u, todo)
  {
  }

  lemma PoolIsAlive(s: State)
    requires Reachable(s)
    ensures M.Distinct(s.mem.finished) && forall p :: p in s.mem.finished ==> p in s.mem.heap
  {
    ReachableMem(s);
    M.ListsAlive(s.mem);
  }

  /** At rest, the published object, the lists and the pool are all there is, without overlap. */
  lemma EverythingAlive(s: State)
    requires Reachable(s) && s.mem.hand.Empty?
    ensures var m := s.mem;
      && M.Distinct(m.lists.zero) && M.Distinct(m.lists.one) && M.Distinct(m.finished)
      && (forall x :: x in m.heap <==> x == m.ptr || x in m.lists.zero || x in m.lists.one || x in m.finished)
      && (forall x :: x in m.lists.zero ==> x != m.ptr && x !in m.lists.one && x !in m.finished)
      && (forall x :: x in m.lists.one ==> x != m.ptr && x !in m.finished)
      && m.ptr !in m.finished
  {
    ReachableMem(s);
    M.ListsAlive(s.mem);
    assert forall x :: M.Kept(s.mem, x) <= 1;
  }

  lemma TicketIdentifies(s: State, c: Call, d: Call)
    requires Reachable(s) && c in s.ledger.waiting && d in s.ledger.waiting && c.ticket == d.ticket
    ensures c == d
  {
    ReachableLedger(s);
    L.OutsideRegistered(s.ledger, c);
    L.OutsideRegistered(s.ledger, d);
  }

  lemma RegistrationGrows(s: State, s': State)
    requires Reachable(s) && Follows(s, s')
    ensures |s.ledger.registered| <= |s'.ledger.registered|
  {
    var actions :| Run(s, actions) && After(s, actions) == s';
    RunGrows(s, actions);
  }

  lemma PublicationGrows(s: State, s': State)
    requires Reachable(s) && Follows(s, s')
    ensures s.ledger.published <= s'.ledger.published
  {
    var actions :| Run(s, actions) && After(s, actions) == s';
    RunGrows(s, actions);
  }

  /** No reader holds what is deleted, pooled, or being written. */
  ghost predicate HoldersSafe(m: M.Mem) {
    forall t :: m.ReaderOf(t).Holding? ==>
      var p := m.ReaderOf(t).obj; p in m.heap && p !in m.finished && m.hand != M.Copy(p)
  }

  lemma ReachableHoldersSafe(s: State)
    requires Reachable(s)
    ensures HoldersSafe(s.mem)
  {
    forall t | s.mem.ReaderOf(t).Holding?
      ensures var p := s.mem.ReaderOf(t).obj; p in s.mem.heap && p !in s.mem.finished && s.mem.hand != M.Copy(p)
    {
      GracePeriod(s, t);
    }
  }

  lemma AllApplied(s: State)
    requires Reachable(s) && |s.ledger.updaters| == 1 && s.ledger.updaters[0].phase.Publish?
    requires s.ledger.updaters[0].done == s.ledger.updateCnt
    ensures multiset(s.ledger.applied) == multiset(s.ledger.registered)
  {
    var l := s.ledger;
    ReachableLedger(s);
    L.Sizes(l);
    assert L.Line(l) == l.applied && L.Outside(l) == [];
  }

  lemma SomeoneWillWrite(s: State)
    requires Reachable(s) && |s.ledger.updaters| == 1 && s.ledger.updaters[0].phase.Drain? && s.ledger.queue == []
    ensures s.ledger.waiting != [] && Enabled(s, UpdateStep(L.Enqueue(0)))
  {
    ReachableLedger(s);
    EmptyQueueHasWriter(s.ledger);
  }

  /** What a step of its own means for the thread that runs a method. */
  lemma OwnStep(s: State, a: Action, n: nat)
    requires Reachable(s) && Work(a)
    ensures Enabled(s, a) && |s.mem.slots| <= n ==>
      && Harmless(Outside, s, Do(s, a)) && Do(s, a).mem.slots == s.mem.slots
      && Fuel(Do(s, a), n) < Fuel(s, n)
  {
    if Enabled(s, a) && |s.mem.slots| <= n {
      ReachableJoined(s);
      ForeignIsHarmless(Outside, s, a);
      StepFrame(s, a);
      WorkBurns(s, a, n);
    }
  }

  // ---------------------------------------------------------------------------------------------
  // The record of an execution.

  /** A batch of steps is let through: those that are not the thread's own and can be taken. */
  function Played(role: Role, s: State, batch: seq<Action>): State {
    if batch == [] then s
    else
      var s' := Played(role, s, batch[..|batch| - 1]);
      var a := batch[|batch| - 1];
      if Foreign(role, s', a) && Enabled(s', a) then Do(s', a) else s'
  }

  lemma PlayedNext(role: Role, s: State, batch: seq<Action>, i: nat)
    requires i < |batch|
    ensures var s', a := Played(role, s, batch[..i]), batch[i];
      Played(role, s, batch[..i + 1]) == if Foreign(role, s', a) && Enabled(s', a) then Do(s', a) else s'
  {
    assert batch[..i + 1][..i] == batch[..i];
  }

  lemma BringsNext(batch: seq<Action>, i: nat, n: nat)
    requires i < |batch|
    ensures Brings(batch[i..], n) == Brings([batch[i]], n) + Brings(batch[i + 1..], n)
  {
    assert batch[i..][1..] == batch[i + 1..] && [batch[i]][1..] == [];
  }

  /** The thread takes a step of its own, or lets the others run. */
  datatype Event =
    | Own(a: Action)
    | Others(role: Role, batch: seq<Action>)

  ghost predicate Feasible(s: State, events: seq<Event>)
    decreases |events|, 0
  {
    events == [] ||
    (var front, e := events[..|events| - 1], events[|events| - 1];
     Feasible(s, front) && (e.Own? ==> Enabled(Play(s, front), e.a)))
  }

  ghost function Play(s: State, events: seq<Event>): State
    requires Feasible(s, events)
    decreases |events|, 1
  {
    if events == [] then s
    else
      var s' := Play(s, events[..|events| - 1]);
      match events[|events| - 1]
      case Own(a) => Do(s', a)
      case Others(role, batch) => Played(role, s', batch)
  }

  function Turns(events: seq<Event>): nat {
    if events == [] then 0
    else Turns(events[..|events| - 1]) + if events[|events| - 1].Others? then 1 else 0
  }

  /** The batch for the `k`-th turn of the others; after the last one they do nothing. */
  function Turn(schedule: seq<seq<Action>>, k: nat): seq<Action> {
    if k < |schedule| then schedule[k] else []
  }

  function Rest(schedule: seq<seq<Action>>, k: nat): seq<seq<Action>> {
    if k <= |schedule| then schedule[k..] else []
  }

  /** At their turns the others run the batches of the schedule, each of them and in this order. */
  ghost predicate Attends(schedule: seq<seq<Action>>, events: seq<Event>) {
    events == [] ||
    (var front, e := events[..|events| - 1], events[|events| - 1];
     Attends(schedule, front) && (e.Others? ==> e.batch == Turn(schedule, Turns(front))))
  }

  /** From `s`, with `schedule` ahead, the events lead to `s'`, with `schedule'` left. */
  ghost predicate Chronicle(s: State, schedule: seq<seq<Action>>, events: seq<Event>,
                            s': State, schedule': seq<seq<Action>>) {
    && Feasible(s, events) && Play(s, events) == s'
    && Attends(schedule, events) && schedule' == Rest(schedule, Turns(events))
  }

  lemma RestOfRest(schedule: seq<seq<Action>>, k: nat)
    ensures Turn(Rest(schedule, k), 0) == Turn(schedule, k)
    ensures Rest(Rest(schedule, k), 1) == Rest(schedule, k + 1)
  {
  }

  lemma NextTurn(schedule: seq<seq<Action>>)
    ensures Turn(Rest(schedule, 1), 0) == Turn(schedule, 1)
    ensures schedule == [] ==> Rest(schedule, 1) == []
  {
  }

  lemma ChronicleEmpty(s: State, schedule: seq<seq<Action>>)
    ensures Chronicle(s, schedule, [], s, schedule)
  {
  }

  lemma ChronicleOwn(s: State, schedule: seq<seq<Action>>, events: seq<Event>, s': State, schedule': seq<seq<Action>>,
                     a: Action)
    requires Chronicle(s, schedule, events, s', schedule') && Enabled(s', a)
    ensures Chronicle(s, schedule, events + [Own(a)], Do(s', a), schedule')
  {
    assert (events + [Own(a)])[..|events|] == events;
  }

  lemma ChronicleOthers(s: State, schedule: seq<seq<Action>>, events: seq<Event>, s': State, schedule': seq<seq<Action>>,
                        role: Role)
    requires Chronicle(s, schedule, events, s', schedule')
    ensures var batch := Turn(schedule', 0);
      Chronicle(s, schedule, events + [Others(role, batch)], Played(role, s', batch), Rest(schedule', 1))
  {
    hide Played, Rest, Turn, Enabled, Do;
    RestOfRest(schedule, Turns(events));
    var e := Others(role, Turn(schedule', 0));
    assert (events + [e])[..|events|] == events && (events + [e])[|events|] == e;
  }

  lemma ChronicleFront(s: State, schedule: seq<seq<Action>>, events: seq<Event>, s': State, schedule': seq<seq<Action>>)
      returns (m: State, rest: seq<seq<Action>>)
    requires Chronicle(s, schedule, events, s', schedule') && events != []
    ensures Chronicle(s, schedule, events[..|events| - 1], m, rest)
    ensures var e := events[|events| - 1];
      if e.Own? then Enabled(m, e.a) && s' == Do(m, e.a) && schedule' == rest
      else e.batch == Turn(rest, 0) && s' == Played(e.role, m, e.batch) && schedule' == Rest(rest, 1)
  {
    hide Played, Enabled, Do, Rest, Turn;
    var front := events[..|events| - 1];
    m, rest := Play(s, front), Rest(schedule, Turns(front));
    RestOfRest(schedule, Turns(front));
  }

  /** The later part of a record is the record of what happened since. */
  lemma {:induction false} ChronicleSince(s: State, schedule: seq<seq<Action>>, before: seq<Event>, since: seq<Event>,
                       s': State, schedule': seq<seq<Action>>, s'': State, schedule'': seq<seq<Action>>)
    requires Chronicle(s, schedule, before, s', schedule')
    requires Chronicle(s, schedule, before + since, s'', schedule'')
    ensures Chronicle(s', schedule', since, s'', schedule'')
    decreases |since|
  {
    if since == [] {
      assert before + since == before;
      ChronicleEmpty(s', schedule');
    } else {
      hide Chronicle, Played, Enabled, Do, Rest, Turn;
      var front, e := since[..|since| - 1], since[|since| - 1];
      assert (before + since)[..|before + since| - 1] == before + front && since == front + [e];
      var m, rest := ChronicleFront(s, schedule, before + since, s'', schedule'');
      ChronicleSince(s, schedule, before, front, s', schedule', m, rest);
      match e
      case Own(a) => ChronicleOwn(s', schedule', front, m, rest, a);
      case Others(role, batch) => ChronicleOthers(s', schedule', front, m, rest, role);
    }
  }

  lemma SinceThen(start: State, agenda: seq<seq<Action>>, before: seq<Event>, s: State, schedule: seq<seq<Action>>,
                  events: seq<Event>, s': State, schedule': seq<seq<Action>>)
    requires before <= events && Chronicle(start, agenda, before, s, schedule)
    requires Chronicle(start, agenda, events, s', schedule')
    ensures Chronicle(s, schedule, events[|before|..], s', schedule')
  {
    hide Chronicle;
    assert before + events[|before|..] == events;
    ChronicleSince(start, agenda, before, events[|before|..], s, schedule, s', schedule');
  }

  lemma {:induction false} PlayedFollows(role: Role, s: State, batch: seq<Action>)
    ensures Follows(s, Played(role, s, batch))
  {
    if batch == [] {
      FollowsSelf(s);
    } else {
      var front, a := batch[..|batch| - 1], batch[|batch| - 1];
      PlayedFollows(role, s, front);
      if Foreign(role, Played(role, s, front), a) && Enabled(Played(role, s, front), a) {
        FollowsStep(s, Played(role, s, front), a);
      }
    }
  }

  /** Whatever is recorded is a run of the system. */
  lemma {:induction false} PlayFollows(s: State, events: seq<Event>)
    requires Feasible(s, events)
    ensures Follows(s, Play(s, events))
  {
    if events == [] {
      FollowsSelf(s);
    } else {
      var s' := Play(s, events[..|events| - 1]);
      PlayFollows(s, events[..|events| - 1]);
      match events[|events| - 1]
      case Own(a) => FollowsStep(s, s', a);
      case Others(role, batch) =>
        PlayedFollows(role, s', batch);
        FollowsTransitive(s, s', Played(role, s', batch));
    }
  }

  /** The batch has no step of the thread itself: none of the reader `t`, not the enqueuing of the call
      `c`, none that only an updater takes. */
  ghost predicate OfOthers(role: Role, s: State, batch: seq<Action>) {
    match role
    case Outside => true
    case Reading(t) => forall a :: a in batch && a.ReaderStep? ==> a.r.t != t
    case Updating => forall a :: a in batch ==> a.ReaderStep? || (a.UpdateStep? && (a.u.FetchAdd? || a.u.Enqueue?))
    case Enqueuing(c) =>
      forall i :: 0 <= i < |batch| && Run(s, batch[..i]) ==> !Enqueues(After(s, batch[..i]).ledger, batch[i], c)
  }

  predicate Enqueues(l: L.State, a: Action, c: Call) {
    a.UpdateStep? && a.u.Enqueue? && a.u.i < |l.waiting| && l.waiting[a.u.i].ticket == c.ticket
  }

  /** Nothing the others can do is kept from them. */
  lemma {:induction false} PlayedIsRun(role: Role, s: State, batch: seq<Action>)
    requires Run(s, batch) && OfOthers(role, s, batch)
    ensures Played(role, s, batch) == After(s, batch)
  {
    if batch != [] {
      var front, a := batch[..|batch| - 1], batch[|batch| - 1];
      assert forall b :: b in front ==> b in batch;
      assert a in batch;
      assert forall i :: 0 <= i < |front| ==> front[..i] == batch[..i];
      PlayedIsRun(role, s, front);
      assert Foreign(role, After(s, front), a);
    }
  }

  function StepsOf(e: Event): seq<Action> {
    if e.Own? then [e.a] else e.batch
  }

  /** The steps of an execution in their order. */
  function Flatten(events: seq<Event>): seq<Action> {
    if events == [] then []
    else Flatten(events[..|events| - 1]) + StepsOf(events[|events| - 1])
  }

  /** The batches of the events are steps of the others. */
  ghost predicate Fair(s: State, events: seq<Event>) {
    events == [] ||
    (var front, e := events[..|events| - 1], events[|events| - 1];
     Fair(s, front) && (e.Others? && Run(s, Flatten(front)) ==> OfOthers(e.role, After(s, Flatten(front)), e.batch)))
  }

  lemma {:induction false} Split(s: State, first: seq<Action>, second: seq<Action>)
    requires Run(s, first + second)
    ensures Run(s, first) && Run(After(s, first), second)
    ensures After(s, first + second) == After(After(s, first), second)
  {
    if second == [] {
      assert first + second == first;
    } else {
      var front := second[..|second| - 1];
      assert (first + second)[..|first + second| - 1] == first + front;
      Split(s, first, front);
    }
  }

  /** Every interleaving of a thread's steps with steps of the others is an execution. */
  lemma {:induction false} EveryInterleaving(s: State, events: seq<Event>)
    requires Run(s, Flatten(events)) && Fair(s, events)
    ensures Feasible(s, events) && Play(s, events) == After(s, Flatten(events))
  {
    if events != [] {
      var front, e := events[..|events| - 1], events[|events| - 1];
      var last := StepsOf(e);
      Split(s, Flatten(front), last);
      EveryInterleaving(s, front);
      match e
      case Own(a) => assert last[..0] == [] && last[0] == a;
      case Others(role, batch) => PlayedIsRun(role, After(s, Flatten(front)), batch);
    }
  }

  // ---------------------------------------------------------------------------------------------
  // What a thread does itself.

  /** The event at `i` is a turn of the others, or a step of the updater right after such a turn. */
  predicate WorkAt(events: seq<Event>, from: nat, i: nat)
    requires i < |events|
  {
    match events[i]
    case Own(a) => OfUpdater(a) && from < i && events[i - 1].Others?
    case Others(role, _) => role.Updating?
  }

  /** Since `before`, the thread was the updater, and before each of its accesses the others had a turn. */
  ghost predicate Worked(before: seq<Event>, events: seq<Event>) {
    && |before| <= |events| && events[..|before|] == before
    && forall i :: |before| <= i < |events| ==> WorkAt(events, |before|, i)
  }

  lemma WorkedSelf(before: seq<Event>)
    ensures Worked(before, before)
  {
  }

  lemma WorkedTransitive(before: seq<Event>, events: seq<Event>, later: seq<Event>)
    requires Worked(before, events) && Worked(events, later)
    ensures Worked(before, later)
  {
    assert later[..|events|][..|before|] == later[..|before|];
    forall i | |before| <= i < |later| ensures WorkAt(later, |before|, i) {
      if i < |events| {
        assert WorkAt(events, |before|, i);
        assert later[..|events|][i] == later[i];
        assert |before| < i ==> later[..|events|][i - 1] == later[i - 1];
      } else {
        assert WorkAt(later, |events|, i);
      }
    }
  }

  /** The callbacks of the calls of `update` that the thread made, nested ones not included. */
  function OwnCalls(events: seq<Event>): seq<Callback> {
    if events == [] then []
    else
      OwnCalls(events[..|events| - 1])
      + match events[|events| - 1]
        case Own(a) => if a.UpdateStep? && a.u.FetchAdd? then [a.u.callback] else []
        case Others(_, _) => []
  }

  lemma {:induction false} WorkedCalls(before: seq<Event>, events: seq<Event>)
    requires Worked(before, events)
    ensures OwnCalls(events) == OwnCalls(before)
    decreases |events|
  {
    if |before| == |events| {
      assert events == before;
    } else {
      var front := events[..|events| - 1];
      assert front[..|before|] == events[..|before|];
      forall i | |before| <= i < |front| ensures WorkAt(front, |before|, i) {
        assert WorkAt(events, |before|, i);
      }
      assert WorkAt(events, |before|, |front|);
      WorkedCalls(before, front);
    }
  }

  /** Since `before`, the others ran while the thread waited to enqueue the call `c`. */
  ghost predicate Waited(before: seq<Event>, events: seq<Event>, c: Call) {
    && |before| <= |events| && events[..|before|] == before
    && forall i :: |before| <= i < |events| ==> events[i].Others? && events[i].role == Enqueuing(c)
  }

  lemma WorkedTurn(before: seq<Event>, batch: seq<Action>)
    ensures Worked(before, before + [Others(Updating, batch)])
  {
    var events := before + [Others(Updating, batch)];
    assert events[..|before|] == before;
  }

  /** The others have a turn, then the updater makes one access. */
  lemma WorkedStep(before: seq<Event>, batch: seq<Action>, a: Action)
    requires OfUpdater(a)
    ensures Worked(before, before + [Others(Updating, batch)] + [Own(a)])
  {
    var events := before + [Others(Updating, batch)] + [Own(a)];
    assert events[..|before|] == before;
  }

  lemma WorkedThenOwn(before: seq<Event>, events: seq<Event>, a: Action)
    requires Worked(before, events) && |before| < |events| && events[|events| - 1].Others? && OfUpdater(a)
    ensures Worked(before, events + [Own(a)])
  {
    var later := events + [Own(a)];
    assert later[..|before|] == events[..|before|];
    forall i | |before| <= i < |later| ensures WorkAt(later, |before|, i) {
      assert i < |events| ==> WorkAt(events, |before|, i);
    }
  }

  lemma WaitedSelf(before: seq<Event>, c: Call)
    ensures Waited(before, before, c)
  {
  }

  lemma WaitedTransitive(before: seq<Event>, events: seq<Event>, later: seq<Event>, c: Call)
    requires Waited(before, events, c) && Waited(events, later, c)
    ensures Waited(before, later, c)
  {
    assert later[..|events|][..|before|] == later[..|before|];
    assert forall i :: |before| <= i < |events| ==> later[..|events|][i] == later[i];
  }

  lemma WaitedTurn(before: seq<Event>, events: seq<Event>, c: Call, batch: seq<Action>)
    requires Waited(before, events, c)
    ensures Waited(before, events + [Others(Enqueuing(c), batch)], c)
  {
    var later := events + [Others(Enqueuing(c), batch)];
    assert later[..|before|] == events[..|before|];
  }

  lemma {:induction false} WaitedCalls(before: seq<Event>, events: seq<Event>, c: Call)
    requires Waited(before, events, c)
    ensures OwnCalls(events) == OwnCalls(before)
    decreases |events|
  {
    if |before| == |events| {
      assert events == before;
    } else {
      var front := events[..|events| - 1];
      assert front[..|before|] == events[..|before|];
      WaitedCalls(before, front, c);
    }
  }

  /** After waiting, the call `c` was enqueued. */
  ghost predicate Wrote(before: seq<Event>, events: seq<Event>, c: Call) {
    && events != []
    && Waited(before, events[..|events| - 1], c)
    && var e := events[|events| - 1]; e.Own? && e.a.UpdateStep? && e.a.u.Enqueue?
  }

  /** The queue makes its writer wait, or its reader. */
  predicate Blocks(full: bool, l: L.State) {
    if full then l.capacity <= |l.queue| else l.queue == []
  }

  ghost predicate BlockedAt(s: State, events: seq<Event>, full: bool) {
    Feasible(s, events) && Blocks(full, Play(s, events).ledger)
  }

  /** Whenever a thread waited, from the given event on, the queue made it wait. */
  ghost predicate WaitedInNeed(s: State, from: nat, events: seq<Event>, full: bool) {
    forall i :: from <= i < |events| ==> BlockedAt(s, events[..i], full)
  }

  lemma WaitInNeed(s: State, schedule: seq<seq<Action>>, from: nat, events: seq<Event>, s': State,
                   schedule': seq<seq<Action>>, e: Event, full: bool)
    requires Chronicle(s, schedule, events, s', schedule') && Blocks(full, s'.ledger)
    requires WaitedInNeed(s, from, events, full)
    ensures WaitedInNeed(s, from, events + [e], full)
  {
    forall i | from <= i < |events + [e]| ensures BlockedAt(s, (events + [e])[..i], full) {
      if i < |events| {
        assert (events + [e])[..i] == events[..i];
      } else {
        assert (events + [e])[..i] == events;
      }
    }
  }

  /** However an `update` of `f` goes on after its `fetch_add`, its thread makes no second call. */
  lemma OneCall(before: seq<Event>, batch: seq<Action>, f: Callback, events: seq<Event>, c: Call)
    requires var called := before + [Others(Outside, batch), Own(UpdateStep(L.FetchAdd(f)))];
      Worked(called, events) || Wrote(called, events, c) || Waited(called, events, c)
    ensures OwnCalls(events) == OwnCalls(before) + [f] && before <= events
  {
    var turn := before + [Others(Outside, batch)];
    var called := before + [Others(Outside, batch), Own(UpdateStep(L.FetchAdd(f)))];
    assert called[..|called| - 1] == turn && turn[..|turn| - 1] == before;
    assert OwnCalls(called) == OwnCalls(before) + [f];
    if Worked(called, events) {
      WorkedCalls(called, events);
    } else if Wrote(called, events, c) {
      WaitedCalls(called, events[..|events| - 1], c);
    } else {
      WaitedCalls(called, events, c);
    }
    assert before <= called <= events;
  }

  // ---------------------------------------------------------------------------------------------
  // `get_ptr`.

  /** `get_ptr`: three steps of the thread and, between them, two turns of the others. */
  function ReadEvents(t: M.Tid, b0: seq<Action>, b1: seq<Action>): seq<Event> {
    [Own(ReaderStep(M.LoadEpoch(t))), Others(Reading(t), b0),
     Own(ReaderStep(M.StoreSlot(t))), Others(Reading(t), b1),
     Own(ReaderStep(M.LoadPtr(t)))]
  }

  lemma InReadOrder(before: seq<Event>, t: M.Tid, b0: seq<Action>, b1: seq<Action>)
    ensures before + [Own(ReaderStep(M.LoadEpoch(t)))] + [Others(Reading(t), b0)]
            + [Own(ReaderStep(M.StoreSlot(t)))] + [Others(Reading(t), b1)]
            + [Own(ReaderStep(M.LoadPtr(t)))] == before + ReadEvents(t, b0, b1)
  {
  }

  function ReadSteps(t: M.Tid, b0: seq<Action>, b1: seq<Action>): seq<Action> {
    [ReaderStep(M.LoadEpoch(t))] + b0 + [ReaderStep(M.StoreSlot(t))] + b1 + [ReaderStep(M.LoadPtr(t))]
  }

  ghost predicate OthersRead(t: M.Tid, batch: seq<Action>) {
    forall a :: a in batch && a.ReaderStep? ==> a.r.t != t
  }

  lemma FlattenPlus(events: seq<Event>, e: Event)
    ensures Flatten(events + [e]) == Flatten(events) + StepsOf(e)
  {
    assert (events + [e])[..|events + [e]| - 1] == events;
  }

  lemma FairPlus(s: State, events: seq<Event>, e: Event)
    requires Fair(s, events)
    requires e.Others? && Run(s, Flatten(events)) ==> OfOthers(e.role, After(s, Flatten(events)), e.batch)
    ensures Fair(s, events + [e])
  {
    assert (events + [e])[..|events + [e]| - 1] == events;
  }

  lemma FlattenFive(e: seq<Event>)
    requires |e| == 5
    ensures Flatten(e) == StepsOf(e[0]) + StepsOf(e[1]) + StepsOf(e[2]) + StepsOf(e[3]) + StepsOf(e[4])
  {
    assert Flatten([]) + StepsOf(e[0]) == StepsOf(e[0]);
    hide Flatten, StepsOf;
    var h1, h2, h3, h4 := [e[0]], [e[0], e[1]], [e[0], e[1], e[2]], [e[0], e[1], e[2], e[3]];
    assert [] + [e[0]] == h1 && h1 + [e[1]] == h2 && h2 + [e[2]] == h3 && h3 + [e[3]] == h4 && h4 + [e[4]] == e;
    FlattenPlus([], e[0]);
    FlattenPlus(h1, e[1]);
    FlattenPlus(h2, e[2]);
    FlattenPlus(h3, e[3]);
    FlattenPlus(h4, e[4]);
  }

  lemma FlattenRead(t: M.Tid, b0: seq<Action>, b1: seq<Action>)
    ensures Flatten(ReadEvents(t, b0, b1)) == ReadSteps(t, b0, b1)
  {
    hide Flatten;
    FlattenFive(ReadEvents(t, b0, b1));
  }

  lemma FairRead(s: State, t: M.Tid, b0: seq<Action>, b1: seq<Action>)
    requires OthersRead(t, b0) && OthersRead(t, b1)
    ensures Fair(s, ReadEvents(t, b0, b1))
  {
    var e := ReadEvents(t, b0, b1);
    assert Fair(s, []);
    hide Fair, Flatten, Run;
    var h1, h2, h3, h4 := [e[0]], [e[0], e[1]], [e[0], e[1], e[2]], [e[0], e[1], e[2], e[3]];
    assert [] + [e[0]] == h1 && h1 + [e[1]] == h2 && h2 + [e[2]] == h3 && h3 + [e[3]] == h4 && h4 + [e[4]] == e;
    FairPlus(s, [], e[0]);
    FairPlus(s, h1, e[1]);
    FairPlus(s, h2, e[2]);
    FairPlus(s, h3, e[3]);
    FairPlus(s, h4, e[4]);
  }

  /** Any steps of other threads between the three accesses of `get_ptr` are an execution of it. */
  lemma EveryRead(s: State, schedule: seq<seq<Action>>, t: M.Tid, b0: seq<Action>, b1: seq<Action>,
                  s': State, schedule': seq<seq<Action>>)
    requires Chronicle(s, schedule, ReadEvents(t, b0, b1), s', schedule')
    ensures OthersRead(t, b0) && OthersRead(t, b1) && Run(s, ReadSteps(t, b0, b1)) ==>
      s' == After(s, ReadSteps(t, b0, b1))
  {
    hide Fair, Flatten, Run, Feasible, Attends, OthersRead;
    if OthersRead(t, b0) && OthersRead(t, b1) && Run(s, ReadSteps(t, b0, b1)) {
      FlattenRead(t, b0, b1);
      FairRead(s, t, b0, b1);
      EveryInterleaving(s, ReadEvents(t, b0, b1));
    }
  }

  /** Publications of the time that a record covers. */
  lemma LaterPublication(s: State, schedule: seq<seq<Action>>, events: seq<Event>, s': State, schedule': seq<seq<Action>>)
    requires Reachable(s) && Chronicle(s, schedule, events, s', schedule')
    ensures s.ledger.published <= s'.ledger.published
  {
    PlayFollows(s, events);
    PublicationGrows(s, s');
  }

  // ---------------------------------------------------------------------------------------------
  // Without a schedule.

  function OwnSteps(events: seq<Event>): seq<Action> {
    if events == [] then []
    else OwnSteps(events[..|events| - 1]) + if events[|events| - 1].Own? then [events[|events| - 1].a] else []
  }

  /** If the others do nothing, what happened is what the thread did. */
  lemma {:induction false} AloneIsRun(s: State, events: seq<Event>, s': State, schedule': seq<seq<Action>>)
    requires Chronicle(s, [], events, s', schedule')
    ensures Run(s, OwnSteps(events)) && After(s, OwnSteps(events)) == s' && schedule' == []
  {
    hide Do, Enabled, Foreign;
    if events != [] {
      var front, e := events[..|events| - 1], events[|events| - 1];
      AloneIsRun(s, front, Play(s, front), []);
      if e.Own? {
        OneStep(Play(s, front), e.a);
        Concatenate(s, OwnSteps(front), [e.a]);
        assert OwnSteps(events) == OwnSteps(front) + [e.a];
      } else {
        assert OwnSteps(events) == OwnSteps(front);
      }
    }
  }

  lemma {:induction false} OwnStepsConcat(a: seq<Event>, b: seq<Event>)
    ensures OwnSteps(a + b) == OwnSteps(a) + OwnSteps(b)
  {
    if b == [] {
      assert a + b == a;
    } else {
      assert (a + b)[..|a + b| - 1] == a + b[..|b| - 1];
      OwnStepsConcat(a, b[..|b| - 1]);
    }
  }

  /** An updater at work makes no calls from outside. */
  lemma {:induction false} WorkedClosed(before: seq<Event>, events: seq<Event>)
    requires Worked(before, events)
    ensures Closed(OwnSteps(events[|before|..]))
    decreases |events|
  {
    var since := events[|before|..];
    if since != [] {
      var front := events[..|events| - 1];
      assert front[..|before|] == events[..|before|];
      forall i | |before| <= i < |front| ensures WorkAt(front, |before|, i) {
        assert WorkAt(events, |before|, i);
      }
      assert WorkAt(events, |before|, |front|);
      WorkedClosed(before, front);
      assert front[|before|..] == since[..|since| - 1];
    }
  }

  /** An elected thread's `update`, if the others do nothing. */
  lemma AloneUpdate(s: State, before: seq<Event>, f: Callback, events: seq<Event>, s': State, ahead: seq<seq<Action>>)
    requires Reachable(s) && s.ledger.updateCnt == 0
    requires before <= events && Chronicle(s, [], events[|before|..], s', ahead)
    requires Worked(before + [Others(Outside, Turn([], 0)), Own(UpdateStep(L.FetchAdd(f)))], events)
    ensures s'.ledger.waiting == []
    ensures s'.ledger.updateCnt == 0 ==> Served(s, f, s')
    ensures Nodes(f) <= s.ledger.capacity + 1 ==> !Stuck(s')
  {
    hide Reachable, Run, Chronicle, Worked, Closed, Served, Stuck, OwnSteps;
    var call := UpdateStep(L.FetchAdd(f));
    var called := before + [Others(Outside, []), Own(call)];
    WorkedIsPrefix(called, events);
    var work := events[|called|..];
    assert events[|before|..] == [Others(Outside, []), Own(call)] + work;
    AloneIsRun(s, events[|before|..], s', ahead);
    OwnStepsConcat([Others(Outside, []), Own(call)], work);
    FirstCall(call);
    WorkedClosed(called, events);
    Split(s, [call], OwnSteps(work));
    OneStep(s, call);
    UpdateAlone(s, f, OwnSteps(work));
  }

  /** A callback without nested calls. */
  lemma ServedOne(s: State, f: Callback, s': State)
    requires Reachable(s') && Served(s, f, s') && f.nested == []
    ensures s'.ledger.registered == s.ledger.registered + [Call(|s.ledger.registered|, f)]
    ensures s.mem.ptr in s.mem.heap && s'.mem.ptr in s'.mem.heap
    ensures s'.mem.heap[s'.mem.ptr] == f.effect(s.mem.heap[s.mem.ptr])
  {
    hide Reachable, Serve;
    OneNode(f);
    var served := s'.ledger.applied[|s.ledger.applied|..];
    assert |CallbacksOf(served)| == 1 && served[0].callback == CallbacksOf(served)[0] == f;
    ReachableLedger(s');
    assert s'.ledger.registered[|s.ledger.registered|] == served[0];
    var one, v := [f.effect], s.mem.heap[s.mem.ptr];
    assert Transformers([f]) == one && one[..|one| - 1] == [];
    assert RunAll(v, one) == f.effect(v);
  }

  lemma WorkedIsPrefix(before: seq<Event>, events: seq<Event>)
    requires Worked(before, events)
    ensures before <= events
  {
  }

  lemma FirstCall(a: Action)
    ensures OwnSteps([Others(Outside, []), Own(a)]) == [a]
  {
    var events := [Others(Outside, []), Own(a)];
    assert events[..1][..0] == [] && events[..1][0] == Others(Outside, []);
    assert OwnSteps(events[..1]) == [];
  }
}
