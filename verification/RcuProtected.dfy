/** `rcu_protected<T>` as a class: its fields, and its member functions with their loops, run by one
    thread while the others interfere.

    A method body is cut into accesses to shared locations. Before each of them `Interfere` gives the
    other threads a turn; what they try to do then is decided by `schedule`, about which nothing is
    assumed. The field `state` is the whole system including the other threads; every access of a
    method is proved to be the step of the system that it stands for. The history `trace` records the
    thread's own steps and the turns of the others. A method whose thread blocks waits as long as the
    schedule has turns for the others, and then reports that it is blocked.

    The bodies need to know of reachability, records and fuel only what the lemmas say, hence the
    `hide`s. */
module Rcu {
  import opened Callbacks
  import opened System
  import opened Liveness
  import opened Interference
  import opened Guarantees
  import opened Alone
  import opened Readers
  import M = Memory
  import L = Ledger

  datatype Option<+A> = None | Some(value: A)

  class RcuProtected {
    // WBRCU_HARDWARE_CONCURRENCY and the template parameter flushingThreshold.
    const concurrency: M.Positive
    const threshold: nat

    const counters: ThreadCachedReaders
    var ptr: M.Obj
    var epoch: bool
    var retireLists: M.Lists
    var finished: seq<M.Obj>
    var updateCnt: nat
    var queue: seq<Call>

    // The allocator: objects alive with their values, and the number of objects created.
    var heap: map<M.Obj, T>
    var created: nat

    // The whole system, and the steps the other threads are going to try.
    var state: State
    var schedule: seq<seq<Action>>
    // At most so many slots are there while the schedule lasts.
    ghost var bound: nat
    // History: where it began, with which schedule, and what happened since.
    ghost const start: State
    ghost const agenda: seq<seq<Action>>
    ghost var trace: seq<Event>

    /** The fields are those of the system `s`. */
    ghost predicate Mirrors(s: State)
      reads this, counters
    {
      && ptr == s.mem.ptr && epoch == s.mem.epoch
      && retireLists == s.mem.lists && finished == s.mem.finished
      && heap == s.mem.heap && created == s.mem.created
      && counters.epochReading == s.mem.slots
      && updateCnt == s.ledger.updateCnt && queue == s.ledger.queue
    }

    ghost predicate Configured()
      reads this
    {
      && state.mem.concurrency == concurrency
      && state.ledger.threshold == threshold && state.ledger.capacity == 500 * concurrency
      && |state.mem.slots| + Length(schedule) <= bound
    }

    ghost predicate Valid()
      reads this, counters
    {
      && Reachable(state) && Mirrors(state) && Configured()
      && Chronicle(start, agenda, trace, state, schedule)
    }

    /** The steps of updates that can still happen. */
    ghost function Remaining(): nat
      reads this
    {
      Fuel(state, bound) + Reserve(schedule, bound)
    }

    constructor (concurrency: M.Positive, threshold: nat, initial: T, schedule: seq<seq<Action>>)
      ensures Valid()
      ensures this.concurrency == concurrency && this.threshold == threshold && this.schedule == schedule
      ensures state == Init(concurrency, threshold, 500 * concurrency, initial)
      ensures fresh(counters) && trace == []
    {
      this.concurrency, this.threshold := concurrency, threshold;
      counters := new ThreadCachedReaders();
      ptr, epoch, retireLists, finished := 0, false, M.Lists([], []), [];
      updateCnt, queue := 0, [];
      heap, created := map[0 := initial], 1;
      this.schedule := schedule;
      bound := Length(schedule);
      state := Init(concurrency, threshold, 500 * concurrency, initial);
      start, agenda, trace := Init(concurrency, threshold, 500 * concurrency, initial), schedule, [];
      new;
      ChronicleEmpty(state, schedule);
      assert Initial(state) && Run(state, []) && After(state, []) == state;
    }

    // -------------------------------------------------------------------------------------------
    // The other threads.

    /** All fields take the values they have in `s`. */
    method Become(s: State)
      modifies this, counters
      ensures state == s && Mirrors(state)
      ensures schedule == old(schedule) && bound == old(bound) && trace == old(trace)
    {
      hide Reachable, Follows, Chronicle, Fuel, Reserve;
      state := s;
      ptr, epoch, retireLists, finished := s.mem.ptr, s.mem.epoch, s.mem.lists, s.mem.finished;
      heap, created := s.mem.heap, s.mem.created;
      counters.epochReading := s.mem.slots;
      updateCnt, queue := s.ledger.updateCnt, s.ledger.queue;
    }

    /** A step of another thread. */
    method Perform(role: Role, a: Action)
      requires Reachable(state) && Mirrors(state) && Foreign(role, state, a) && Enabled(state, a)
      requires |state.mem.slots| < bound && (role.Updating? ==> |state.ledger.updaters| == 1)
      modifies this, counters
      ensures state == Do(old(state), a) && Mirrors(state) && Harmless(role, old(state), state)
      ensures schedule == old(schedule) && bound == old(bound) && trace == old(trace)
      ensures |state.mem.slots| <= old(|state.mem.slots|) + 1
      ensures Fuel(state, bound) <= old(Fuel(state, bound)) + Brings([a], bound)
    {
      hide Reachable, Follows, Chronicle;
      ReachableJoined(state);
      StepCosts(state, a, bound);
      ForeignIsHarmless(role, state, a);
      Become(Do(state, a));
    }

    /** The other threads run the steps of a batch, as far as they are theirs to take. */
    method LetThrough(role: Role, batch: seq<Action>)
      requires Reachable(state) && Mirrors(state) && (role.Updating? ==> |state.ledger.updaters| == 1)
      requires |state.mem.slots| + |batch| <= bound
      modifies this, counters
      ensures state == Played(role, old(state), batch) && Mirrors(state) && Harmless(role, old(state), state)
      ensures |state.mem.slots| <= old(|state.mem.slots|) + |batch|
      ensures schedule == old(schedule) && bound == old(bound) && trace == old(trace)
      ensures Fuel(state, bound) <= old(Fuel(state, bound)) + Brings(batch, bound)
    {
      var i := 0;
      assert batch[..0] == [] && batch[0..] == batch && Played(role, state, []) == state && Brings([], bound) == 0;
      hide Reachable, Follows, Chronicle, Foreign, Played, Brings, Fuel, Enabled, Do;
      HarmlessSelf(role, state);
      while i < |batch|
        invariant i <= |batch|
        invariant state == Played(role, old(state), batch[..i])
        invariant Mirrors(state) && Harmless(role, old(state), state)
        invariant |state.mem.slots| <= old(|state.mem.slots|) + i
        invariant Fuel(state, bound) + Brings(batch[i..], bound) <= old(Fuel(state, bound)) + Brings(batch, bound)
        invariant schedule == old(schedule) && bound == old(bound) && trace == old(trace)
      {
        var a := batch[i];
        PlayedNext(role, old(state), batch, i);
        BringsNext(batch, i, bound);
        if Foreign(role, state, a) && Enabled(state, a) {
          ghost var before := state;
          Perform(role, a);
          HarmlessTransitive(role, old(state), before, state);
        }
        i := i + 1;
      }
      assert batch[..i] == batch;
    }

    /** The other threads have a turn. If the batch they get is a run of steps that are theirs, they take
        exactly these steps. */
    method Interfere(role: Role)
      requires Valid() && (role.Updating? ==> |state.ledger.updaters| == 1)
      modifies this, counters
      ensures Valid() && Undisturbed(role, old(state), state) && Follows(old(state), state)
      ensures Remaining() <= old(Remaining())
      ensures schedule == Rest(old(schedule), 1)
      ensures trace == old(trace) + [Others(role, Turn(old(schedule), 0))]
      ensures state == Played(role, old(state), Turn(old(schedule), 0))
      ensures old(schedule) == [] ==> state == old(state)
      ensures old(schedule) != [] && Run(old(state), old(schedule)[0]) && OfOthers(role, old(state), old(schedule)[0])
          ==> state == After(old(state), old(schedule)[0])
    {
      hide Reachable, Follows, Chronicle, Fuel, Foreign;
      var batch := if schedule == [] then [] else schedule[0];
      ChronicleOthers(start, agenda, trace, state, schedule, role);
      if Run(state, batch) && OfOthers(role, state, batch) {
        PlayedIsRun(role, state, batch);
      }
      trace := trace + [Others(role, batch)];
      schedule := if schedule == [] then [] else schedule[1..];
      LetThrough(role, batch);
    }

    // -------------------------------------------------------------------------------------------
    // The updater's accesses.

    /** The one updater at work is the thread that runs the method. */
    ghost predicate Working(u: L.Updater)
      reads this
    {
      state.ledger.updaters == [u]
    }

    /** The access just made was the step `a` of the system. */
    method Note(a: Action)
      requires Reachable(state) && Configured() && Chronicle(start, agenda, trace, state, schedule)
      requires Enabled(state, a) && Work(a) && Mirrors(Do(state, a))
      modifies this`state, this`trace
      ensures Valid() && state == Do(old(state), a) && trace == old(trace) + [Own(a)]
      ensures Remaining() < old(Remaining())
    {
      hide Reachable, Follows, Chronicle;
      OwnStep(state, a, bound);
      ChronicleOwn(start, agenda, trace, state, schedule, a);
      trace := trace + [Own(a)];
      state := Do(state, a);
    }

    /** Memory for a copy: the last object of the pool, or a new one. */
    method TakeObject() returns (taken: M.Obj)
      modifies this`finished, this`created
      ensures if old(finished) == [] then taken == old(created) && created == taken + 1 && finished == []
              else taken == old(finished)[|old(finished)| - 1] && created == old(created)
                   && finished == old(finished)[..|old(finished)| - 1]
    {
      if finished == [] {
        taken := created;
        created := created + 1;
      } else {
        taken := finished[|finished| - 1];
        finished := finished[..|finished| - 1];
      }
    }

    /** `get_copy`: a new object, or a pooled one overwritten in place. */
    method GetCopy(ghost u: L.Updater) returns (copied: M.Obj)
      requires Valid() && Working(u) && Enabled(state, UpdateStep(L.GetCopy(0)))
      modifies this
      ensures Valid() && trace == old(trace) + [Own(UpdateStep(L.GetCopy(0)))] && schedule == old(schedule)
      ensures Remaining() < old(Remaining())
      ensures state.mem.hand == M.Copy(copied) && HoldersSafe(state.mem)
      ensures state.ledger == old(state.ledger).(updaters := state.ledger.updaters)
      ensures Working(if u.phase.Elected? then u.(phase := L.Running(u.own)) else L.Settle(threshold, u.(unflushed := 0)))
      ensures old(ptr) in old(heap) && ptr == old(ptr) && heap == old(heap)[copied := old(heap)[old(ptr)]]
      ensures if old(finished) == [] then copied == old(created) && created == copied + 1 && finished == []
              else copied == old(finished)[|old(finished)| - 1] && created == old(created)
                   && finished == old(finished)[..|old(finished)| - 1]
    {
      hide Reachable, Follows, Chronicle, Worked, Fuel, Reserve;
      copied := TakeObject();
      heap := heap[copied := heap[ptr]];
      Note(UpdateStep(L.GetCopy(0)));
      ReachableHoldersSafe(state);
    }

    method LoadCount(ghost u: L.Updater) returns (count: nat)
      requires Valid() && Working(u) && u.phase.Load?
      modifies this
      ensures Valid() && trace == old(trace) + [Own(UpdateStep(L.LoadCount(0)))] && schedule == old(schedule)
      ensures Remaining() < old(Remaining())
      ensures count == old(updateCnt) && Working(L.Settle(threshold, u.(count := count)))
      ensures state.mem == old(state.mem) && state.ledger == old(state.ledger).(updaters := state.ledger.updaters)
    {
      hide Reachable, Follows, Chronicle, Worked, Fuel, Reserve;
      count := updateCnt;
      Note(UpdateStep(L.LoadCount(0)));
    }

    method ReloadCount(ghost u: L.Updater) returns (count: nat)
      requires Valid() && Working(u) && u.phase.Reload?
      modifies this
      ensures Valid() && trace == old(trace) + [Own(UpdateStep(L.ReloadCount(0)))] && schedule == old(schedule)
      ensures Remaining() < old(Remaining())
      ensures count == old(updateCnt)
      ensures Working(if u.done != count then L.Settle(threshold, u.(count := count))
                      else u.(count := count, phase := L.Publish))
      ensures state.mem == old(state.mem) && state.ledger == old(state.ledger).(updaters := state.ledger.updaters)
    {
      hide Reachable, Follows, Chronicle, Worked, Fuel, Reserve;
      count := updateCnt;
      Note(UpdateStep(L.ReloadCount(0)));
    }

    method Dequeue(ghost u: L.Updater) returns (c: Call)
      requires Valid() && Working(u) && u.phase.Drain? && queue != []
      modifies this
      ensures Valid() && trace == old(trace) + [Own(UpdateStep(L.Read(0)))] && schedule == old(schedule)
      ensures Remaining() < old(Remaining())
      ensures old(queue) == [c] + queue && Working(u.(phase := L.Running(c)))
      ensures state.mem == old(state.mem) && state.ledger.applied == old(state.ledger.applied)
    {
      hide Reachable, Follows, Chronicle, Worked, Fuel, Reserve;
      c := queue[0];
      queue := queue[1..];
      Note(UpdateStep(L.Read(0)));
    }

    /** The updater waits for a call that another thread has registered and is able to enqueue. */
    ghost predicate AwaitsWriter()
      reads this
    {
      && |state.ledger.updaters| == 1 && state.ledger.updaters[0].phase.Drain?
      && queue == [] && state.ledger.waiting != [] && Enabled(state, UpdateStep(L.Enqueue(0)))
      && schedule == []
    }

    /** Waits while the queue is empty. */
    method AwaitQueue(ghost u: L.Updater)
      requires Valid() && Working(u)
      modifies this, counters
      ensures Valid() && Undisturbed(Updating, old(state), state)
      ensures Worked(old(trace), trace) && |old(trace)| < |trace| && trace[|trace| - 1].Others?
      ensures old(queue) != [] ==> |trace| == |old(trace)| + 1
      ensures WaitedInNeed(start, |old(trace)| + 1, trace, false)
      ensures Remaining() <= old(Remaining())
      ensures queue == [] ==> schedule == []
    {
      hide Reachable, Follows, Chronicle, Worked, BlockedAt, Played, Fuel, Reserve;
      WorkedTurn(old(trace), Turn(schedule, 0));
      Interfere(Updating);
      while queue == [] && schedule != []
        invariant Valid() && Undisturbed(Updating, old(state), state)
        invariant Worked(old(trace), trace) && |old(trace)| < |trace| && trace[|trace| - 1].Others?
        invariant old(queue) != [] ==> |trace| == |old(trace)| + 1
        invariant WaitedInNeed(start, |old(trace)| + 1, trace, false)
        invariant Remaining() <= old(Remaining())
        decreases |schedule|
      {
        ghost var before, s0 := trace, state;
        WorkedTurn(trace, Turn(schedule, 0));
        WaitInNeed(start, agenda, |old(trace)| + 1, trace, state, schedule, Others(Updating, Turn(schedule, 0)), false);
        Interfere(Updating);
        WorkedTransitive(old(trace), before, trace);
        UndisturbedTransitive(Updating, old(state), s0, state);
      }
    }

    /** `m_updateQueue.blockingRead`. */
    method BlockingRead(ghost u: L.Updater) returns (taken: Option<Call>)
      requires Valid() && Working(u) && u.phase.Drain?
      modifies this, counters
      ensures Valid() && Worked(old(trace), trace)
      ensures state.mem == old(state).mem.(slots := state.mem.slots, readers := state.mem.readers)
      ensures taken.None? ==> Remaining() <= old(Remaining()) && Working(u) && AwaitsWriter()
      ensures taken.Some? ==> Remaining() < old(Remaining()) && Working(u.(phase := L.Running(taken.value)))
      ensures old(queue) != [] ==> taken == Some(old(queue)[0]) && |trace| == |old(trace)| + 2
      ensures WaitedInNeed(start, |old(trace)| + 1, if taken.None? then trace else trace[..|trace| - 1], false)
      ensures state.ledger.applied == old(state.ledger.applied)
    {
      hide Reachable, Follows, Chronicle, Worked, Fuel, Reserve;
      AwaitQueue(u);
      if queue == [] {
        SomeoneWillWrite(state);
        return None;
      }
      ghost var before := trace;
      var c := Dequeue(u);
      WorkedThenOwn(old(trace), before, UpdateStep(L.Read(0)));
      assert trace[..|trace| - 1] == before;
      taken := Some(c);
    }

    /** The invocation proper: the callback changes the private copy. */
    method Apply(ghost u: L.Updater, copied: M.Obj, c: Call)
      requires Valid() && Working(u) && u.phase == L.Running(c) && state.mem.hand == M.Copy(copied)
      modifies this
      ensures Valid() && trace == old(trace) + [Own(UpdateStep(L.Invoke(0)))] && schedule == old(schedule)
      ensures Remaining() < old(Remaining())
      ensures copied in old(heap) && heap == old(heap)[copied := c.callback.effect(old(heap)[copied])]
      ensures Working(L.Continue(threshold, u, c.callback.nested)) && state.mem.hand == M.Copy(copied)
      ensures state.ledger.applied == old(state.ledger.applied) + [c]
    {
      hide Reachable, Follows, Chronicle, Worked, Fuel, Reserve;
      ReachableValues(state);
      heap := heap[copied := c.callback.effect(heap[copied])];
      Note(UpdateStep(L.Invoke(0)));
    }

    /** A call of `update` from inside a callback: `try_register` never elects it. */
    method NestedRegister(ghost u: L.Updater, f: Callback) returns (c: Call)
      requires Valid() && Working(u) && u.phase.Nested? && u.phase.todo != [] && u.phase.todo[0] == f
      modifies this
      ensures Valid() && trace == old(trace) + [Own(UpdateStep(L.NestedFetchAdd(0)))] && schedule == old(schedule)
      ensures Remaining() < old(Remaining())
      ensures Working(u.(phase := L.Writing(c, u.phase.todo[1..]))) && c.callback == f
      ensures updateCnt == old(updateCnt) + 1
      ensures state.mem == old(state.mem) && state.ledger.applied == old(state.ledger.applied)
      ensures state.ledger.registered == old(state.ledger.registered) + [c]
    {
      hide Reachable, Follows, Chronicle, Worked, Fuel, Reserve;
      ReachableJoined(state);
      c := Call(|state.ledger.registered|, f);
      updateCnt := updateCnt + 1;
      Note(UpdateStep(L.NestedFetchAdd(0)));
    }

    /** `m_updateQueue.blockingWrite` of the updater itself: only it makes room in the queue, so if the
        queue is full it is blocked for good. */
    method NestedWrite(ghost u: L.Updater, c: Call) returns (written: bool)
      requires Valid() && Working(u) && u.phase.Writing? && u.phase.call == c
      modifies this
      ensures Valid() && schedule == old(schedule)
      ensures written ==> trace == old(trace) + [Own(UpdateStep(L.NestedWrite(0)))]
      ensures written <==> |old(queue)| < 500 * concurrency
      ensures state.mem == old(state.mem) && state.ledger.applied == old(state.ledger.applied)
      ensures Remaining() <= old(Remaining())
      ensures !written ==> state == old(state) && trace == old(trace) && Stuck(state)
      ensures written ==> queue == old(queue) + [c] && Working(L.Continue(threshold, u, u.phase.todo))
    {
      hide Reachable, Follows, Chronicle, Worked, Fuel, Reserve;
      FollowsSelf(state);
      if 500 * concurrency <= |queue| {
        return false;
      }
      queue := queue + [c];
      Note(UpdateStep(L.NestedWrite(0)));
      written := true;
    }

    method InterferedNestedWrite(ghost u: L.Updater, c: Call) returns (written: bool)
      requires Valid() && Working(u) && u.phase.Writing? && u.phase.call == c
      modifies this, counters
      ensures Valid() && Worked(old(trace), trace) && Remaining() <= old(Remaining())
      ensures state.mem == old(state).mem.(slots := state.mem.slots, readers := state.mem.readers)
      ensures state.ledger.applied == old(state.ledger.applied)
      ensures written ==> Working(L.Continue(threshold, u, u.phase.todo)) && queue != [] && queue[|queue| - 1] == c
      ensures !written ==> Stuck(state)
    {
      hide Reachable, Follows, Chronicle, Worked, Fuel, Reserve;
      WorkedTurn(trace, Turn(schedule, 0));
      WorkedStep(trace, Turn(schedule, 0), UpdateStep(L.NestedWrite(0)));
      Interfere(Updating);
      written := NestedWrite(u, c);
    }

    /** One nested call of `update`, with the steps of other threads before its two accesses. */
    method NestedUpdate(ghost u: L.Updater, f: Callback, ghost rest: seq<Callback>) returns (written: bool)
      requires Valid() && Working(u) && u.phase == L.Nested([f] + rest)
      modifies this, counters
      ensures Valid() && Worked(old(trace), trace) && Remaining() < old(Remaining())
      ensures state.mem == old(state).mem.(slots := state.mem.slots, readers := state.mem.readers)
      ensures state.ledger.applied == old(state.ledger.applied)
      ensures heap == old(heap)
      ensures written ==> Working(L.Continue(threshold, u, rest)) && queue != [] && queue[|queue| - 1].callback == f
      ensures !written ==> Stuck(state)
    {
      hide Reachable, Follows, Chronicle, Worked, Fuel, Reserve;
      WorkedStep(trace, Turn(schedule, 0), UpdateStep(L.NestedFetchAdd(0)));
      Interfere(Updating);
      assert u.phase.todo[0] == f && u.phase.todo[1..] == rest;
      var c := NestedRegister(u, f);
      ghost var registered := trace;
      ContinueForgetsPhase(threshold, u, L.Writing(c, rest), rest);
      written := InterferedNestedWrite(u.(phase := L.Writing(c, rest)), c);
      WorkedTransitive(old(trace), registered, trace);
    }

    method InterferedApply(ghost u: L.Updater, copied: M.Obj, c: Call)
      requires Valid() && Working(u) && u.phase == L.Running(c) && state.mem.hand == M.Copy(copied)
      modifies this, counters
      ensures Valid() && Worked(old(trace), trace) && Remaining() < old(Remaining())
      ensures copied in old(heap) && heap == old(heap)[copied := c.callback.effect(old(heap)[copied])]
      ensures Working(L.Continue(threshold, u, c.callback.nested)) && state.mem.hand == M.Copy(copied)
      ensures state.ledger.applied == old(state.ledger.applied) + [c]
    {
      hide Reachable, Follows, Chronicle, Worked, Fuel, Reserve;
      WorkedStep(trace, Turn(schedule, 0), UpdateStep(L.Invoke(0)));
      Interfere(Updating);
      Apply(u, copied, c);
    }

    /** `updateToDo(copied)`: runs a callback with the nested calls of `update` it makes. */
    method RunCallback(ghost u: L.Updater, copied: M.Obj, c: Call) returns (finished: bool)
      requires Valid() && Working(u) && u.phase == L.Running(c) && state.mem.hand == M.Copy(copied)
      modifies this, counters
      ensures Valid() && Worked(old(trace), trace) && Remaining() < old(Remaining())
      ensures state.mem.hand == M.Copy(copied)
      ensures state.ledger.applied == old(state.ledger.applied) + [c]
      ensures copied in old(heap) && heap == old(heap)[copied := c.callback.effect(old(heap)[copied])]
      ensures finished ==> Working(L.Continue(threshold, u, []))
      ensures !finished ==> Stuck(state)
    {
      hide Reachable, Follows, Chronicle, Worked, Fuel, Reserve;
      InterferedApply(u, copied, c);
      ghost var changed := heap;
      var todo := c.callback.nested;
      while todo != []
        invariant Valid() && Worked(old(trace), trace) && Remaining() < old(Remaining())
        invariant Working(L.Continue(threshold, u, todo)) && state.mem.hand == M.Copy(copied)
        invariant state.ledger.applied == old(state.ledger.applied) + [c]
        invariant heap == changed
        decreases |todo|
      {
        ghost var before := trace;
        assert todo == [todo[0]] + todo[1..];
        var written := NestedUpdate(L.Continue(threshold, u, todo), todo[0], todo[1..]);
        WorkedTransitive(old(trace), before, trace);
        if !written {
          return false;
        }
        todo := todo[1..];
      }
      finished := true;
    }

    // -------------------------------------------------------------------------------------------
    // Publishing and retiring.

    /** `m_ptr.exchange(copied)`. */
    method Exchange(ghost u: L.Updater, copied: M.Obj) returns (previous: M.Obj)
      requires Valid() && Working(u) && u.phase.Publish? && state.mem.hand == M.Copy(copied)
      modifies this
      ensures Valid() && trace == old(trace) + [Own(UpdateStep(L.PublishCopy(0)))] && schedule == old(schedule)
      ensures Remaining() < old(Remaining())
      ensures previous == old(ptr) && ptr == copied && heap == old(heap)
      ensures state.mem.hand == M.Old(previous) && Working(u.(phase := L.Retire, first := false))
      ensures state.ledger.published == |state.ledger.applied| && state.ledger.applied == old(state.ledger.applied)
    {
      hide Reachable, Follows, Chronicle, Worked, Fuel, Reserve;
      previous := ptr;
      ptr := copied;
      Note(UpdateStep(L.PublishCopy(0)));
    }

    method PushRetired(ghost u: L.Updater, p: M.Obj)
      requires Valid() && Working(u) && u.phase.Retire? && state.mem.hand == M.Old(p)
      modifies this
      ensures Valid() && trace == old(trace) + [Own(RetireStep(0, M.Push))] && schedule == old(schedule)
      ensures Remaining() < old(Remaining())
      ensures epoch == old(epoch) && finished == old(finished)
      ensures retireLists == old(retireLists).Put(epoch, old(retireLists).At(epoch) + [p])
      ensures state.ledger == old(state.ledger)
      ensures state.mem.hand == if |retireLists.At(epoch)| < concurrency then M.Empty else M.Due
      ensures ptr == old(ptr) && heap == old(heap) && state.ledger.published == old(state.ledger.published)
    {
      hide Reachable, Follows, Chronicle, Worked, Fuel, Reserve;
      retireLists := retireLists.Put(epoch, retireLists.At(epoch) + [p]);
      Note(RetireStep(0, M.Push));
    }

    /** `epochReading.accessAllThreads()`: fixes the slots to be read. */
    method AccessAllThreads(ghost u: L.Updater) returns (access: set<M.Tid>)
      requires Valid() && Working(u) && u.phase.Retire? && state.mem.hand.Due?
      modifies this
      ensures Valid() && trace == old(trace) + [Own(RetireStep(0, M.AccessSlots))] && schedule == old(schedule)
      ensures Remaining() < old(Remaining())
      ensures access == counters.epochReading.Keys
      ensures state.mem.hand == M.Scanning(access) && state.ledger == old(state.ledger)
      ensures epoch == old(epoch) && retireLists == old(retireLists) && finished == old(finished)
      ensures ptr == old(ptr) && heap == old(heap)
    {
      hide Reachable, Follows, Chronicle, Worked, Fuel, Reserve;
      access := counters.epochReading.Keys;
      Note(RetireStep(0, M.AccessSlots));
    }

    method ReadSlot(ghost u: L.Updater, pending: set<M.Tid>, t: M.Tid, prev: bool) returns (reading: bool)
      requires Valid() && Working(u) && u.phase.Retire? && state.mem.hand == M.Scanning(pending)
      requires t in pending && prev == !epoch
      modifies this
      ensures Valid() && trace == old(trace) + [Own(RetireStep(0, M.ReadSlot(t)))] && schedule == old(schedule)
      ensures Remaining() < old(Remaining())
      ensures t in counters.epochReading && (reading <==> counters.epochReading[t] == M.Label(prev))
      ensures state.ledger == old(state.ledger)
      ensures epoch == old(epoch) && retireLists == old(retireLists) && finished == old(finished)
      ensures state.mem.hand == if reading then M.Empty else M.Scanning(pending - {t})
      ensures ptr == old(ptr) && heap == old(heap) && state.ledger.published == old(state.ledger.published)
    {
      hide Reachable, Follows, Chronicle, Worked, Fuel, Reserve;
      ReachableSlots(state);
      reading := counters.Reads(t, prev);
      Note(RetireStep(0, M.ReadSlot(t)));
    }

    method InterferedReadSlot(ghost u: L.Updater, pending: set<M.Tid>, t: M.Tid, prev: bool) returns (reading: bool)
      requires Valid() && Working(u) && u.phase.Retire? && state.mem.hand == M.Scanning(pending)
      requires t in pending && prev == !epoch
      modifies this, counters
      ensures Valid() && Worked(old(trace), trace) && Remaining() < old(Remaining()) && Working(u)
      ensures epoch == old(epoch) && retireLists == old(retireLists) && finished == old(finished)
      ensures state.mem.hand == if reading then M.Empty else M.Scanning(pending - {t})
      ensures ptr == old(ptr) && heap == old(heap) && state.ledger.published == old(state.ledger.published)
    {
      hide Reachable, Follows, Chronicle, Worked, Fuel, Reserve;
      WorkedStep(trace, Turn(schedule, 0), RetireStep(0, M.ReadSlot(t)));
      Interfere(Updating);
      reading := ReadSlot(u, pending, t, prev);
    }

    /** `m_counters.epochIsClear(prev)`: reads the slots one by one, in any order, while readers come
        and go. */
    method EpochIsClear(ghost u: L.Updater, prev: bool) returns (clear: bool)
      requires Valid() && Working(u) && u.phase.Retire? && state.mem.hand.Due? && prev == !epoch
      modifies this, counters
      ensures Valid() && Worked(old(trace), trace) && Remaining() < old(Remaining()) && Working(u)
      ensures epoch == old(epoch) && retireLists == old(retireLists) && finished == old(finished)
      ensures state.mem.hand == if clear then M.Scanning({}) else M.Empty
      ensures ptr == old(ptr) && heap == old(heap) && state.ledger.published == old(state.ledger.published)
    {
      hide Reachable, Follows, Chronicle, Worked, Fuel, Reserve;
      WorkedStep(trace, Turn(schedule, 0), RetireStep(0, M.AccessSlots));
      Interfere(Updating);
      var pending := AccessAllThreads(u);
      while pending != {}
        invariant Valid() && Worked(old(trace), trace) && Remaining() < old(Remaining())
        invariant Working(u) && state.mem.hand == M.Scanning(pending)
        invariant epoch == old(epoch) && retireLists == old(retireLists) && finished == old(finished)
        invariant ptr == old(ptr) && heap == old(heap) && state.ledger.published == old(state.ledger.published)
        decreases |pending|
      {
        ghost var before := trace;
        var t :| t in pending;
        var reading := InterferedReadSlot(u, pending, t, prev);
        WorkedTransitive(old(trace), before, trace);
        if reading {
          return false;
        }
        pending := pending - {t};
      }
      clear := true;
    }

    method SwapAndDelete(prev: bool)
      requires M.Distinct(finished) && forall p :: p in finished ==> p in heap
      modifies this`finished, this`retireLists, this`heap
      ensures finished == old(retireLists).At(prev) && retireLists == old(retireLists).Put(prev, [])
      ensures heap == old(heap) - (set x | x in old(finished))
    {
      finished, retireLists := retireLists.At(prev), retireLists.Put(prev, finished);
      DeleteAll(retireLists.At(prev));
      retireLists := retireLists.Put(prev, []);
    }

    /** rcu_protected.hpp, lines 226 to 228: the old list of the previous epoch becomes the pool, what was left of the old
        pool is deleted, and the list is emptied. */
    method Reclaim(ghost u: L.Updater, prev: bool)
      requires Valid() && Working(u) && u.phase.Retire? && state.mem.hand == M.Scanning({}) && prev == !epoch
      modifies this
      ensures Valid() && trace == old(trace) + [Own(RetireStep(0, M.Reclaim))] && schedule == old(schedule)
      ensures Remaining() < old(Remaining())
      ensures finished == old(retireLists).At(prev) && retireLists == old(retireLists).Put(prev, [])
      ensures heap == old(heap) - (set x | x in old(finished)) && epoch == old(epoch)
      ensures state.ledger == old(state.ledger) && state.mem.hand == M.Reclaimed
      ensures HoldersSafe(state.mem)
      ensures ptr == old(ptr)
    {
      hide Reachable, Follows, Chronicle, Worked, Fuel, Reserve;
      PoolIsAlive(state);
      SwapAndDelete(prev);
      Note(RetireStep(0, M.Reclaim));
      ReachableHoldersSafe(state);
    }

    method Delete(p: M.Obj)
      requires p in heap
      modifies this`heap
      ensures heap == old(heap) - {p}
    {
      heap := heap - {p};
    }

    /** Deletes every object of a list; none is deleted twice. */
    method DeleteAll(list: seq<M.Obj>)
      requires M.Distinct(list) && forall p :: p in list ==> p in heap
      modifies this`heap
      ensures heap == old(heap) - (set x | x in list)
    {
      var i := 0;
      while i < |list|
        invariant i <= |list|
        invariant heap == old(heap) - (set x | x in list[..i])
      {
        Delete(list[i]);
        i := i + 1;
      }
      assert list[..i] == list;
    }

    method StoreEpoch(ghost u: L.Updater, prev: bool)
      requires Valid() && Working(u) && u.phase.Retire? && state.mem.hand.Reclaimed? && prev == !epoch
      modifies this
      ensures Valid() && trace == old(trace) + [Own(RetireStep(0, M.Flip))] && schedule == old(schedule)
      ensures Remaining() < old(Remaining())
      ensures epoch == prev && retireLists == old(retireLists) && finished == old(finished)
      ensures state.ledger == old(state.ledger) && state.mem.hand.Empty?
      ensures ptr == old(ptr) && heap == old(heap) && state.ledger.published == old(state.ledger.published)
    {
      hide Reachable, Follows, Chronicle, Worked, Fuel, Reserve;
      epoch := prev;
      Note(RetireStep(0, M.Flip));
    }

    /** The part of `retire` after a scan that found the previous epoch clear. */
    method Advance(ghost u: L.Updater, prev: bool)
      requires Valid() && Working(u) && u.phase.Retire? && state.mem.hand == M.Scanning({}) && prev == !epoch
      modifies this, counters
      ensures Valid() && Worked(old(trace), trace) && Remaining() < old(Remaining()) && Working(u)
      ensures epoch == prev && state.mem.hand.Empty?
      ensures finished == old(retireLists).At(prev) && retireLists == old(retireLists).Put(prev, [])
      ensures ptr == old(ptr) && heap == old(heap) - (set x | x in old(finished))
      ensures state.ledger.published == old(state.ledger.published)
    {
      hide Reachable, Follows, Chronicle, Worked, Fuel, Reserve;
      WorkedStep(trace, Turn(schedule, 0), RetireStep(0, M.Reclaim));
      Interfere(Updating);
      Reclaim(u, prev);
      ghost var reclaimed := trace;
      WorkedStep(trace, Turn(schedule, 0), RetireStep(0, M.Flip));
      Interfere(Updating);
      StoreEpoch(u, prev);
      WorkedTransitive(old(trace), reclaimed, trace);
    }

    /** `retire`: the pointer goes to the list of the current epoch; if that list is long enough and no
        slot shows the previous epoch, the previous list becomes the pool and the epoch advances. */
    method Retire(ghost u: L.Updater, p: M.Obj) returns (advanced: bool)
      requires Valid() && Working(u) && u.phase.Retire? && state.mem.hand == M.Old(p)
      modifies this, counters
      ensures Valid() && Worked(old(trace), trace) && Remaining() < old(Remaining()) && Working(u)
      ensures state.mem.hand.Empty?
      ensures advanced ==> concurrency <= |old(retireLists).At(old(epoch))| + 1
      ensures var pushed := old(retireLists).Put(old(epoch), old(retireLists).At(old(epoch)) + [p]);
        if advanced then
          && epoch == !old(epoch) && finished == old(retireLists).At(epoch)
          && retireLists == pushed.Put(epoch, [])
        else
          epoch == old(epoch) && retireLists == pushed && finished == old(finished)
      ensures heap == if advanced then old(heap) - (set x | x in old(finished)) else old(heap)
      ensures ptr == old(ptr) && state.ledger.published == old(state.ledger.published)
    {
      hide Reachable, Follows, Chronicle, Worked, Fuel, Reserve;
      WorkedStep(trace, Turn(schedule, 0), RetireStep(0, M.Push));
      Interfere(Updating);
      var curr, prev := epoch, !epoch;
      PushRetired(u, p);
      advanced := false;
      if |retireLists.At(curr)| < concurrency {
        return;
      }
      ghost var pushed := trace;
      var clear := EpochIsClear(u, prev);
      WorkedTransitive(old(trace), pushed, trace);
      if !clear {
        return;
      }
      ghost var scanned := trace;
      Advance(u, prev);
      WorkedTransitive(old(trace), scanned, trace);
      advanced := true;
    }

    /** `m_updateCnt.compare_exchange_strong(updateCnt, 0)`. */
    method CompareExchange(ghost u: L.Updater, expected: nat) returns (swapped: bool, actual: nat)
      requires Valid() && Working(u) && u.phase.Retire? && state.mem.hand.Empty?
      requires u.done == u.count == expected
      modifies this
      ensures Valid() && trace == old(trace) + [Own(UpdateStep(L.Resign(0)))] && schedule == old(schedule)
      ensures Remaining() < old(Remaining())
      ensures actual == old(updateCnt) && (swapped <==> actual == expected)
      ensures updateCnt == if swapped then 0 else actual
      ensures swapped ==> state.ledger.updaters == [] && u.own in state.ledger.returned
      ensures !swapped ==> Working(u.(count := actual, phase := L.Recopy)) && state.mem == old(state.mem)
    {
      hide Reachable, Follows, Chronicle, Worked, Fuel, Reserve;
      actual := updateCnt;
      swapped := actual == expected;
      if swapped {
        updateCnt := 0;
      }
      Note(UpdateStep(L.Resign(0)));
    }

    // -------------------------------------------------------------------------------------------
    // Updating.

    /** rcu_protected.hpp, lines 175 to 176: takes an update from the queue and runs it on the private copy. */
    method ServeNext(ghost u: L.Updater, copied: M.Obj) returns (served: bool)
      requires Valid() && Working(u) && u.phase.Drain? && state.mem.hand == M.Copy(copied)
      modifies this, counters
      ensures Valid() && Worked(old(trace), trace) && state.mem.hand == M.Copy(copied)
      ensures served ==> Remaining() < old(Remaining()) && Working(L.Continue(threshold, u, []))
      ensures served && old(queue) != [] ==> state.ledger.applied == old(state.ledger.applied) + [old(queue)[0]]
      ensures !served ==> AwaitsWriter() || Stuck(state)
    {
      hide Reachable, Follows, Chronicle, Worked, Fuel, Reserve;
      var taken := BlockingRead(u);
      if taken.None? {
        return false;
      }
      ghost var before := trace;
      served := RunCallback(u.(phase := L.Running(taken.value)), copied, taken.value);
      WorkedTransitive(old(trace), before, trace);
      ContinueForgetsPhase(threshold, u, L.Running(taken.value), []);
    }

    method InterferedReload(ghost u: L.Updater) returns (count: nat)
      requires Valid() && Working(u) && u.phase.Reload?
      modifies this, counters
      ensures Valid() && Worked(old(trace), trace) && Remaining() < old(Remaining())
      ensures state.mem.hand == old(state.mem.hand) && count == updateCnt
      ensures trace != [] && trace[|trace| - 1] == Own(UpdateStep(L.ReloadCount(0)))
      ensures Working(if u.done != count then L.Settle(threshold, u.(count := count))
                      else u.(count := count, phase := L.Publish))
    {
      hide Reachable, Follows, Chronicle, Worked, Fuel, Reserve;
      WorkedStep(trace, Turn(schedule, 0), UpdateStep(L.ReloadCount(0)));
      Interfere(Updating);
      count := ReloadCount(u);
    }

    /** rcu_protected.hpp, lines 173 to 181: applies queued updates as long as there are counted ones, up to the flushing
        threshold. */
    method ServeCounted(ghost own: Call, ghost first: bool, copied: M.Obj, done0: nat, count: nat, unflushed0: nat)
      returns (ready: bool, done: nat, unflushed: nat)
      requires Valid() && state.mem.hand == M.Copy(copied) && 0 < done0
      requires Working(L.Settle(threshold, L.Updater(own, L.Load, done0, count, unflushed0, first)))
      requires 0 < threshold ==> unflushed0 < threshold
      modifies this, counters
      ensures Valid() && Worked(old(trace), trace) && state.mem.hand == M.Copy(copied)
      ensures ready ==>
        && Working(L.Settle(threshold, L.Updater(own, L.Load, done, count, unflushed, first)))
        && done - done0 == unflushed - unflushed0 >= 0
        && (count <= done || 0 < unflushed == threshold)
        && (0 < threshold ==> unflushed <= threshold)
        && Remaining() <= old(Remaining())
      ensures !ready ==> AwaitsWriter() || Stuck(state)
    {
      hide Reachable, Follows, Chronicle, Worked, Fuel, Reserve;
      done, unflushed := done0, unflushed0;
      WorkedSelf(trace);
      while done < count
        invariant Valid() && Worked(old(trace), trace) && state.mem.hand == M.Copy(copied)
        invariant Working(L.Settle(threshold, L.Updater(own, L.Load, done, count, unflushed, first)))
        invariant done - done0 == unflushed - unflushed0 >= 0 && (0 < threshold ==> unflushed < threshold)
        invariant Remaining() <= old(Remaining())
        decreases Remaining()
      {
        ghost var before := trace;
        var served := ServeNext(L.Updater(own, L.Drain, done, count, unflushed, first), copied);
        WorkedTransitive(old(trace), before, trace);
        if !served {
          return false, done, unflushed;
        }
        done, unflushed := done + 1, unflushed + 1;
        if unflushed == threshold {
          break;
        }
      }
      ready := true;
    }

    /** rcu_protected.hpp, lines 172 to 187: applies queued updates until as many are applied as were counted at the last
        look, or the flushing threshold is reached. */
    method FillBatch(ghost own: Call, ghost first: bool, copied: M.Obj, done0: nat, count0: nat)
      returns (ready: bool, done: nat, count: nat, unflushed: nat)
      requires Valid() && state.mem.hand == M.Copy(copied) && 0 < done0
      requires Working(L.Settle(threshold, L.Updater(own, L.Load, done0, count0, 0, first)))
      modifies this, counters
      ensures Valid() && Worked(old(trace), trace) && state.mem.hand == M.Copy(copied)
      ensures ready ==> Working(L.Updater(own, L.Publish, done, count, unflushed, first)) && 0 < done
      ensures ready ==> done == done0 + unflushed && (0 < threshold ==> unflushed <= threshold)
      ensures ready && unflushed != threshold ==>
        && done == count == updateCnt
        && trace != [] && trace[|trace| - 1] == Own(UpdateStep(L.ReloadCount(0)))
        && multiset(state.ledger.applied) == multiset(state.ledger.registered)
      ensures ready ==> Remaining() <= old(Remaining())
      ensures !ready ==> AwaitsWriter() || Stuck(state)
    {
      hide Reachable, Follows, Chronicle, Worked, Fuel, Reserve;
      done, count, unflushed := done0, count0, 0;
      WorkedSelf(trace);
      while true
        invariant Valid() && Worked(old(trace), trace) && state.mem.hand == M.Copy(copied)
        invariant Working(L.Settle(threshold, L.Updater(own, L.Load, done, count, unflushed, first)))
        invariant done == done0 + unflushed && (0 < threshold ==> unflushed < threshold)
        invariant Remaining() <= old(Remaining())
        decreases Remaining()
      {
        ghost var s0 := trace;
        ready, done, unflushed := ServeCounted(own, first, copied, done, count, unflushed);
        WorkedTransitive(old(trace), s0, trace);
        if !ready {
          return;
        }
        if unflushed == threshold {
          break;
        }
        ghost var s1 := trace;
        count := InterferedReload(L.Updater(own, L.Reload, done, count, unflushed, first));
        WorkedTransitive(old(trace), s1, trace);
        if done == count {
          AllApplied(state);
          break;
        }
      }
      ready := true;
    }

    /** rcu_protected.hpp, lines 190 and 191: publishes the copy and retires what it replaces. */
    method Flush(ghost u: L.Updater, copied: M.Obj)
      requires Valid() && Working(u) && u.phase.Publish? && state.mem.hand == M.Copy(copied)
      modifies this, counters
      ensures Valid() && Worked(old(trace), trace) && Remaining() < old(Remaining())
      ensures state.mem.hand.Empty? && Working(u.(phase := L.Retire, first := false))
      ensures ptr == copied && state.ledger.published == |old(state.ledger.applied)|
    {
      hide Reachable, Follows, Chronicle, Worked, Fuel, Reserve;
      WorkedStep(trace, Turn(schedule, 0), UpdateStep(L.PublishCopy(0)));
      Interfere(Updating);
      var previous := Exchange(u, copied);
      ghost var exchanged := trace;
      var _ := Retire(u.(phase := L.Retire, first := false), previous);
      WorkedTransitive(old(trace), exchanged, trace);
    }

    method InterferedCompareExchange(ghost u: L.Updater, expected: nat) returns (swapped: bool, actual: nat)
      requires Valid() && Working(u) && u.phase.Retire? && state.mem.hand.Empty?
      requires u.done == u.count == expected
      modifies this, counters
      ensures Valid() && Worked(old(trace), trace) && Remaining() < old(Remaining())
      ensures swapped ==> updateCnt == 0 && state.ledger.updaters == [] && u.own in state.ledger.returned
      ensures !swapped ==> Working(u.(count := actual, phase := L.Recopy)) && state.mem.hand.Empty?
    {
      hide Reachable, Follows, Chronicle, Worked, Fuel, Reserve;
      WorkedStep(trace, Turn(schedule, 0), UpdateStep(L.Resign(0)));
      Interfere(Updating);
      swapped, actual := CompareExchange(u, expected);
    }

    method InterferedGetCopy(ghost u: L.Updater) returns (copied: M.Obj)
      requires Valid() && Working(u) && state.mem.hand.Empty?
      requires u.phase.Elected? || u.phase.Recopy? || (u.phase.Retire? && u.done != u.count)
      modifies this, counters
      ensures Valid() && Worked(old(trace), trace) && Remaining() < old(Remaining())
      ensures state.mem.hand == M.Copy(copied)
      ensures Working(if u.phase.Elected? then u.(phase := L.Running(u.own)) else L.Settle(threshold, u.(unflushed := 0)))
    {
      hide Reachable, Follows, Chronicle, Worked, Fuel, Reserve;
      WorkedStep(trace, Turn(schedule, 0), UpdateStep(L.GetCopy(0)));
      Interfere(Updating);
      ReachableValues(state);
      copied := GetCopy(u);
    }

    method InterferedLoadCount(ghost u: L.Updater) returns (count: nat)
      requires Valid() && Working(u) && u.phase.Load?
      modifies this, counters
      ensures Valid() && Worked(old(trace), trace) && Remaining() < old(Remaining())
      ensures state.mem.hand == old(state.mem.hand) && count == updateCnt
      ensures Working(L.Settle(threshold, u.(count := count)))
    {
      hide Reachable, Follows, Chronicle, Worked, Fuel, Reserve;
      WorkedStep(trace, Turn(schedule, 0), UpdateStep(L.LoadCount(0)));
      Interfere(Updating);
      count := LoadCount(u);
    }

    /** Everything registered is applied, and the published object shows it, as if all callbacks had been
        run one by one on a single object. */
    ghost predicate Quiescent()
      reads this
    {
      && multiset(state.ledger.applied) == multiset(state.ledger.registered)
      && ptr in heap && heap[ptr] == RunAll(state.mem.initial, Effects(state.ledger.applied))
    }

    /** `do_updates`: drains the queue in batches, publishes each batch, retires what it replaces, and
        resigns when nothing is left. If it does not come to that, its thread is blocked: it waits for a
        call that another thread has registered but has not enqueued, or for room in the queue that only
        it could make. */
    method DoUpdates(ghost own: Call, first0: M.Obj) returns (resigned: bool)
      requires Valid() && state.mem.hand == M.Copy(first0)
      requires Working(L.Updater(own, L.Load, 1, 0, 0, true))
      modifies this, counters
      ensures Valid() && Worked(old(trace), trace)
      ensures resigned ==> updateCnt == 0 && own in state.ledger.returned && Quiescent()
      ensures !resigned ==> AwaitsWriter() || Stuck(state)
    {
      hide Reachable, Follows, Chronicle, Worked, Fuel, Reserve;
      var copied, done := first0, 1;
      ghost var first := true;
      var count := InterferedLoadCount(L.Updater(own, L.Load, 1, 0, 0, true));
      while true
        invariant Valid() && Worked(old(trace), trace) && state.mem.hand == M.Copy(copied) && 0 < done
        invariant Working(L.Settle(threshold, L.Updater(own, L.Load, done, count, 0, first)))
        decreases Remaining()
      {
        ghost var s2 := trace;
        var ready, unflushed;
        ready, done, count, unflushed := FillBatch(own, first, copied, done, count);
        WorkedTransitive(old(trace), s2, trace);
        if !ready {
          return false;
        }
        ghost var s3 := trace;
        Flush(L.Updater(own, L.Publish, done, count, unflushed, first), copied);
        WorkedTransitive(old(trace), s3, trace);
        first := false;
        ghost var u := L.Updater(own, L.Retire, done, count, unflushed, false);
        if done == count {
          ghost var s4 := trace;
          var swapped;
          swapped, count := InterferedCompareExchange(u, count);
          WorkedTransitive(old(trace), s4, trace);
          if swapped {
            QuiescentValue(state);
            return true;
          }
          u := u.(count := count, phase := L.Recopy);
        }
        ghost var s5 := trace;
        copied := InterferedGetCopy(u);
        WorkedTransitive(old(trace), s5, trace);
      }
    }

    // -------------------------------------------------------------------------------------------
    // The interface: update.

    /** `m_updateCnt.fetch_add(1)`. */
    method Register(f: Callback) returns (c: Call, elected: bool)
      requires Valid()
      modifies this
      ensures Valid() && trace == old(trace) + [Own(UpdateStep(L.FetchAdd(f)))] && schedule == old(schedule)
      ensures state == Do(old(state), UpdateStep(L.FetchAdd(f)))
      ensures updateCnt == old(updateCnt) + 1 && (elected <==> old(updateCnt) == 0)
      ensures c == Call(|old(state.ledger.registered)|, f)
      ensures state.ledger.registered == old(state.ledger.registered) + [c]
      ensures queue == old(queue) && state.mem == old(state.mem)
      ensures elected ==> Working(L.Updater(c, L.Elected, 0, 0, 0, true)) && state.mem.hand.Empty?
      ensures !elected ==> c in state.ledger.waiting
    {
      hide Reachable, Follows, Chronicle, Fuel, Reserve;
      var a := UpdateStep(L.FetchAdd(f));
      ReachableJoined(state);
      ForeignIsHarmless(Outside, state, a);
      ChronicleOwn(start, agenda, trace, state, schedule, a);
      c := Call(|state.ledger.registered|, f);
      elected := updateCnt == 0;
      updateCnt := updateCnt + 1;
      trace := trace + [Own(a)];
      state := Do(state, a);
    }

    /** Waits while the queue is full. */
    method AwaitRoom(c: Call)
      requires Valid() && c in state.ledger.waiting
      modifies this, counters
      ensures Valid() && c in state.ledger.waiting && Waited(old(trace), trace, c)
      ensures WaitedInNeed(start, |old(trace)|, trace, true)
      ensures 500 * concurrency <= |queue| ==> schedule == []
      ensures |old(queue)| < 500 * concurrency || old(schedule) == [] ==>
        trace == old(trace) && state == old(state) && queue == old(queue)
    {
      hide Reachable, Follows, Chronicle, Waited, BlockedAt, Fuel, Reserve;
      WaitedSelf(trace, c);
      while 500 * concurrency <= |queue| && schedule != []
        invariant Valid() && c in state.ledger.waiting && Waited(old(trace), trace, c)
        invariant WaitedInNeed(start, |old(trace)|, trace, true)
        invariant |old(queue)| < 500 * concurrency || old(schedule) == [] ==>
          trace == old(trace) && state == old(state) && queue == old(queue)
        decreases |schedule|
      {
        WaitedTurn(old(trace), trace, c, Turn(schedule, 0));
        WaitInNeed(start, agenda, |old(trace)|, trace, state, schedule, Others(Enqueuing(c), Turn(schedule, 0)), true);
        Interfere(Enqueuing(c));
      }
    }

    /** `m_updateQueue.blockingWrite` of a thread that was not elected. */
    method BlockingWrite(c: Call) returns (written: bool)
      requires Valid() && c in state.ledger.waiting
      modifies this, counters
      ensures Valid()
      ensures written ==> c in state.ledger.returned && queue != [] && queue[|queue| - 1] == c
      ensures written ==> Wrote(old(trace), trace, c)
      ensures !written ==> 500 * concurrency <= |queue| && schedule == [] && Waited(old(trace), trace, c)
      ensures WaitedInNeed(start, |old(trace)|, if written then trace[..|trace| - 1] else trace, true)
      ensures |old(queue)| < 500 * concurrency ==> written && |trace| == |old(trace)| + 1
      ensures |old(queue)| < 500 * concurrency || old(schedule) == [] ==>
        && (written <==> |old(queue)| < 500 * concurrency)
        && queue == (if written then old(queue) + [c] else old(queue))
        && state.mem == old(state.mem) && state.ledger.registered == old(state.ledger.registered)
    {
      hide Reachable, Follows, Chronicle, Waited, WaitedInNeed, Fuel, Reserve;
      AwaitRoom(c);
      if 500 * concurrency <= |queue| {
        return false;
      }
      var i := PlaceOf(c);
      queue := queue + [c];
      ghost var waited := trace;
      Note(UpdateStep(L.Enqueue(i)));
      assert trace[..|trace| - 1] == waited;
      written := true;
    }

    /** Which of the waiting threads is the one that made the call `c`. */
    method PlaceOf(c: Call) returns (i: nat)
      requires Valid() && c in state.ledger.waiting
      ensures i < |state.ledger.waiting| && state.ledger.waiting[i] == c
    {
      hide Reachable, Chronicle;
      ghost var k :| 0 <= k < |state.ledger.waiting| && state.ledger.waiting[k] == c;
      i := 0;
      while state.ledger.waiting[i].ticket != c.ticket
        invariant i <= k
        decreases k - i
      {
        i := i + 1;
      }
      TicketIdentifies(state, state.ledger.waiting[i], c);
    }

    /** rcu_protected.hpp, lines 156 and 74 to 79: the elected thread copies, runs its own callback, then the others'. */
    method RunAsUpdater(c: Call) returns (completed: bool)
      requires Valid() && Working(L.Updater(c, L.Elected, 0, 0, 0, true)) && state.mem.hand.Empty?
      modifies this, counters
      ensures Valid() && Worked(old(trace), trace)
      ensures completed ==> c in state.ledger.returned && updateCnt == 0 && Quiescent()
      ensures !completed ==> AwaitsWriter() || Stuck(state)
    {
      hide Reachable, Follows, Chronicle, Worked, Fuel, Reserve;
      var copied := InterferedGetCopy(L.Updater(c, L.Elected, 0, 0, 0, true));
      ghost var copiedAt := trace;
      completed := RunCallback(L.Updater(c, L.Running(c), 0, 0, 0, true), copied, c);
      WorkedTransitive(old(trace), copiedAt, trace);
      if completed {
        ghost var ranAt := trace;
        completed := DoUpdates(c, copied);
        WorkedTransitive(old(trace), ranAt, trace);
      }
    }

    /** rcu_protected.hpp, line 84: a thread that was not elected leaves its callback to the updater. */
    method EnqueueCall(c: Call) returns (written: bool)
      requires Valid() && c in state.ledger.waiting
      modifies this, counters
      ensures Valid()
      ensures written ==> c in state.ledger.returned
      ensures if written then Wrote(old(trace), trace, c) else Waited(old(trace), trace, c)
      ensures !written ==> 500 * concurrency <= |queue| && schedule == []
      ensures old(schedule) == [] ==>
        && (written <==> |old(queue)| < 500 * concurrency)
        && queue == (if written then old(queue) + [c] else old(queue))
        && state.mem == old(state.mem) && state.ledger.registered == old(state.ledger.registered)
    {
      hide Reachable, Follows, Chronicle, Waited, Fuel, Reserve;
      WaitedSelf(trace, c);
      WaitedTurn(trace, trace, c, Turn(schedule, 0));
      Interfere(Enqueuing(c));
      ghost var before := trace;
      written := BlockingWrite(c);
      WaitedTransitive(old(trace), before, if written then trace[..|trace| - 1] else trace, c);
    }

    /** What happened since the given moment. */
    ghost predicate Since(events: seq<Event>, s: State, ahead: seq<seq<Action>>)
      reads this
    {
      events <= trace && Chronicle(s, ahead, trace[|events|..], state, schedule)
    }

    /** `update`: it makes one call, whose callback is run by this thread, if it is elected, or by the
        updater at work. */
    method Update(f: Callback) returns (completed: bool, elected: bool, c: Call)
      requires Valid()
      modifies this, counters
      ensures Valid() && Since(old(trace), old(state), old(schedule))
      ensures OwnCalls(trace) == OwnCalls(old(trace)) + [f]
      ensures c.callback == f && |old(state.ledger.registered)| <= c.ticket
      ensures completed ==> c in state.ledger.returned
      ensures completed && elected ==> updateCnt == 0 && Quiescent()
      ensures !completed && elected ==> AwaitsWriter() || Stuck(state)
      ensures !completed && !elected ==> 500 * concurrency <= |queue| && schedule == []
      ensures var called := old(trace) + [Others(Outside, Turn(old(schedule), 0)), Own(UpdateStep(L.FetchAdd(f)))];
        if elected then Worked(called, trace)
        else if completed then Wrote(called, trace, c) else Waited(called, trace, c)
      ensures old(schedule) == [] ==> (elected <==> old(updateCnt) == 0)
      ensures old(schedule) == [] && elected ==>
        && (completed ==> Served(old(state), f, state))
        && (Nodes(f) <= 500 * concurrency + 1 ==> completed)
        && (f.nested == [] ==>
              && completed && state.ledger.registered == old(state.ledger.registered) + [c]
              && old(ptr) in old(heap) && heap[ptr] == f.effect(old(heap)[old(ptr)]))
      ensures old(schedule) == [] && !elected ==>
        && (completed <==> |old(queue)| < 500 * concurrency)
        && queue == (if completed then old(queue) + [c] else old(queue))
        && state.mem == old(state.mem) && state.ledger.registered == old(state.ledger.registered) + [c]
    {
      hide Reachable, Follows, Chronicle, Worked, Waited, Wrote, Fuel, Reserve, OwnCalls, Played, Turn, Rest;
      hide Served, Nodes, Do, Stuck;
      NextTurn(schedule);
      Interfere(Outside);
      RegistrationGrows(old(state), state);
      c, elected := Register(f);
      ghost var called := trace;
      assert called == old(trace) + [Others(Outside, Turn(old(schedule), 0)), Own(UpdateStep(L.FetchAdd(f)))];
      if elected {
        completed := RunAsUpdater(c);
      } else {
        completed := EnqueueCall(c);
      }
      OneCall(old(trace), Turn(old(schedule), 0), f, trace, c);
      SinceThen(start, agenda, old(trace), old(state), old(schedule), trace, state, schedule);
      if old(schedule) == [] && elected {
        AloneUpdate(old(state), old(trace), f, trace, state, schedule);
        if f.nested == [] {
          OneNode(f);
          ServedOne(old(state), f, state);
        }
      }
    }

    // -------------------------------------------------------------------------------------------
    // The interface: readers.

    /** The fields are as in `s`, and so are all readers and slots but those of the thread `t`. */
    ghost predicate OnlyReader(t: M.Tid, s: State)
      reads this, counters
    {
      && ptr == s.mem.ptr && epoch == s.mem.epoch && retireLists == s.mem.lists
      && finished == s.mem.finished && heap == s.mem.heap && created == s.mem.created
      && updateCnt == s.ledger.updateCnt && queue == s.ledger.queue && state.ledger == s.ledger
      && (forall u :: u != t ==> state.mem.ReaderOf(u) == s.mem.ReaderOf(u))
      && counters.epochReading - {t} == s.mem.slots - {t}
    }

    /** `get_ptr`. A thread releases its previous pointer first. Whatever others do between its three
        accesses, if they can do it, is an execution. */
    method GetPtr(t: M.Tid) returns (p: M.Obj)
      requires Valid() && state.mem.ReaderOf(t).Out?
      modifies this, counters
      ensures Valid() && Since(old(trace), old(state), old(schedule))
      ensures trace == old(trace) + ReadEvents(t, Turn(old(schedule), 0), Turn(old(schedule), 1))
      ensures var steps := ReadSteps(t, Turn(old(schedule), 0), Turn(old(schedule), 1));
        OthersRead(t, Turn(old(schedule), 0)) && OthersRead(t, Turn(old(schedule), 1)) && Run(old(state), steps) ==>
          state == After(old(state), steps)
      ensures state.mem.ReaderOf(t).Holding? && state.mem.ReaderOf(t).obj == p == ptr
      ensures state.mem.ReaderOf(t).stamp == old(epoch)
      ensures t in counters.epochReading && counters.epochReading[t] == M.Label(old(epoch))
      ensures p in heap && old(state.ledger.published) <= state.ledger.published <= |state.ledger.applied|
      ensures heap[p] == RunAll(state.mem.initial, Effects(state.ledger.applied[..state.ledger.published]))
      ensures old(schedule) == [] ==> OnlyReader(t, old(state))
    {
      hide Reachable, Follows, Chronicle, OthersRead, Run, Fuel, Reserve, Played, Turn, Rest, Do, ReadSteps;
      ghost var b0, b1 := Turn(schedule, 0), Turn(schedule, 1);
      NextTurn(schedule);
      ReadLock(t);
      Interfere(Reading(t));
      p := LoadPtr(t);
      ReachableSlots(state);
      InReadOrder(old(trace), t, b0, b1);
      SinceThen(start, agenda, old(trace), old(state), old(schedule), trace, state, schedule);
      assert trace[|old(trace)|..] == ReadEvents(t, b0, b1);
      LaterPublication(old(state), old(schedule), ReadEvents(t, b0, b1), state, schedule);
      EveryRead(old(state), old(schedule), t, b0, b1, state, schedule);
    }

    /** `rcu_read_lock`: the epoch may have changed when its label reaches the slot. */
    method ReadLock(t: M.Tid)
      requires Valid() && state.mem.ReaderOf(t).Out?
      modifies this, counters
      ensures Valid() && schedule == Rest(old(schedule), 1)
      ensures trace == old(trace) + [Own(ReaderStep(M.LoadEpoch(t)))] + [Others(Reading(t), Turn(old(schedule), 0))]
                       + [Own(ReaderStep(M.StoreSlot(t)))]
      ensures state.mem.ReaderOf(t).Stored? && state.mem.ReaderOf(t).stamp == old(epoch)
      ensures t in counters.epochReading && counters.epochReading[t] == M.Label(old(epoch))
      ensures old(schedule) == [] ==> OnlyReader(t, old(state))
    {
      hide Reachable, Follows, Chronicle, Fuel, Reserve, Played, Turn, Rest, Do;
      var e := LoadEpoch(t);
      Interfere(Reading(t));
      StoreSlot(t, e);
    }

    method LoadEpoch(t: M.Tid) returns (e: bool)
      requires Valid() && state.mem.ReaderOf(t).Out?
      modifies this
      ensures Valid() && state == Do(old(state), ReaderStep(M.LoadEpoch(t)))
      ensures trace == old(trace) + [Own(ReaderStep(M.LoadEpoch(t)))] && schedule == old(schedule)
      ensures e == epoch == old(epoch) && state.mem.ReaderOf(t) == M.Loaded(e)
      ensures OnlyReader(t, old(state)) && counters.epochReading == old(counters.epochReading)
    {
      hide Reachable, Follows, Chronicle, Fuel, Reserve;
      ForeignIsHarmless(Outside, state, ReaderStep(M.LoadEpoch(t)));
      ChronicleOwn(start, agenda, trace, state, schedule, ReaderStep(M.LoadEpoch(t)));
      e := epoch;
      trace := trace + [Own(ReaderStep(M.LoadEpoch(t)))];
      state := Do(state, ReaderStep(M.LoadEpoch(t)));
    }

    method StoreSlot(t: M.Tid, e: bool)
      requires Valid() && state.mem.ReaderOf(t) == M.Loaded(e)
      modifies this, counters
      ensures Valid() && state == Do(old(state), ReaderStep(M.StoreSlot(t)))
      ensures trace == old(trace) + [Own(ReaderStep(M.StoreSlot(t)))] && schedule == old(schedule)
      ensures state.mem.ReaderOf(t).Stored? && state.mem.ReaderOf(t).stamp == e
      ensures counters.epochReading == old(counters.epochReading)[t := M.Label(e)]
      ensures OnlyReader(t, old(state))
    {
      hide Reachable, Follows, Chronicle, Fuel, Reserve;
      ForeignIsHarmless(Outside, state, ReaderStep(M.StoreSlot(t)));
      ChronicleOwn(start, agenda, trace, state, schedule, ReaderStep(M.StoreSlot(t)));
      counters.Increment(t, e);
      bound := bound + 1;
      trace := trace + [Own(ReaderStep(M.StoreSlot(t)))];
      state := Do(state, ReaderStep(M.StoreSlot(t)));
    }

    method LoadPtr(t: M.Tid) returns (p: M.Obj)
      requires Valid() && state.mem.ReaderOf(t).Stored?
      modifies this
      ensures Valid() && state == Do(old(state), ReaderStep(M.LoadPtr(t)))
      ensures trace == old(trace) + [Own(ReaderStep(M.LoadPtr(t)))] && schedule == old(schedule)
      ensures state.mem.ReaderOf(t).Holding? && state.mem.ReaderOf(t).obj == p == ptr
      ensures state.mem.ReaderOf(t).stamp == old(state.mem.ReaderOf(t)).stamp
      ensures p in heap && state.ledger.published <= |state.ledger.applied|
      ensures heap[p] == RunAll(state.mem.initial, Effects(state.ledger.applied[..state.ledger.published]))
      ensures OnlyReader(t, old(state)) && counters.epochReading == old(counters.epochReading)
    {
      hide Reachable, Follows, Chronicle, Fuel, Reserve;
      ForeignIsHarmless(Outside, state, ReaderStep(M.LoadPtr(t)));
      ChronicleOwn(start, agenda, trace, state, schedule, ReaderStep(M.LoadPtr(t)));
      PublishedValue(state);
      p := ptr;
      trace := trace + [Own(ReaderStep(M.LoadPtr(t)))];
      state := Do(state, ReaderStep(M.LoadPtr(t)));
    }

    /** The deleter of the pointer that `get_ptr` returned: one store, to the slot of its own thread. */
    method ReleasePtr(t: M.Tid)
      requires Valid() && state.mem.ReaderOf(t).Holding?
      modifies this, counters
      ensures Valid() && state == Do(old(state), ReaderStep(M.Release(t)))
      ensures trace == old(trace) + [Own(ReaderStep(M.Release(t)))] && schedule == old(schedule)
      ensures state.mem.ReaderOf(t).Out? && counters.epochReading == old(counters.epochReading)[t := 0]
      ensures OnlyReader(t, old(state))
    {
      hide Reachable, Follows, Chronicle, Fuel, Reserve;
      ForeignIsHarmless(Outside, state, ReaderStep(M.Release(t)));
      ChronicleOwn(start, agenda, trace, state, schedule, ReaderStep(M.Release(t)));
      counters.Decrement(t);
      bound := bound + 1;
      trace := trace + [Own(ReaderStep(M.Release(t)))];
      state := Do(state, ReaderStep(M.Release(t)));
    }

    // -------------------------------------------------------------------------------------------
    // The end.

    /** The destructor, run when no update is under way and no reader holds a pointer: it deletes every
        object that is left, each one once, so that nothing is leaked and nothing is deleted twice. */
    method Destroy()
      requires Valid() && updateCnt == 0 && forall t :: !state.mem.ReaderOf(t).Holding?
      modifies this`heap
      ensures heap == map[]
    {
      hide Reachable, Chronicle;
      ReachableJoined(state);
      EverythingAlive(state);
      Delete(ptr);
      DeleteAll(retireLists.zero);
      DeleteAll(retireLists.one);
      DeleteAll(finished);
      assert heap.Keys == {};
    }
  }
}
