/** The memory side of the protocol: the published pointer, the epoch bit, the two retire lists, the
    object pool, the reader slots, and the atomic actions on them.

    An action is one access to a location that another thread may access as well, together with the
    thread-private work around it. Readers are never coordinated with: any reader action may fall
    between any two actions of the updater, in particular between two slot reads of one scan. */
module Memory {
  import opened Callbacks

  type Obj = nat
  type Tid = nat
  type Byte = b: int | 0 <= b < 256
  type Positive = n: int | 0 < n witness 1

  /** The content a slot has while its thread reads under epoch `e`: bit 0 says that it is reading,
      bit 1 is the epoch. A slot of a thread that is not reading contains 0. */
  function Label(e: bool): Byte {
    (if e then 1 else 0) * 2 + 1
  }

  /** `std::array<std::vector<T*>, 2>`, indexed by an epoch. */
  datatype Lists = Lists(zero: seq<Obj>, one: seq<Obj>) {
    function At(e: bool): seq<Obj> {
      if e then one else zero
    }

    function Put(e: bool, list: seq<Obj>): Lists {
      if e then this.(one := list) else this.(zero := list)
    }
  }

  /** Where a reading thread is inside `get_ptr`. `since` and `late` record, at the slot store, the
      number of epoch advances so far and whether a scan for this very label was under way that had
      already passed the slot; `seen` records, at the pointer load, how many transformers had been
      published. */
  datatype Reader =
    | Out
    | Loaded(stamp: bool)
    | Stored(stamp: bool, since: nat, late: bool)
    | Holding(stamp: bool, since: nat, late: bool, obj: Obj, seen: nat)
  {
    predicate Locked() {
      Stored? || Holding?
    }
  }

  /** What the updater has in hand: nothing, the private copy, the pointer it exchanged out, a scan to
      begin, a scan with the slots still to be read, or an emptied list of the previous epoch. */
  datatype Hand =
    | Empty
    | Copy(obj: Obj)
    | Old(obj: Obj)
    | Due
    | Scanning(pending: set<Tid>)
    | Reclaimed

  datatype Mem = Mem(
    concurrency: Positive,
    ptr: Obj,
    epoch: bool,
    lists: Lists,
    finished: seq<Obj>,
    slots: map<Tid, Byte>,
    // The allocator: objects alive with their values, number of allocations, objects deleted.
    heap: map<Obj, T>,
    created: nat,
    freed: seq<Obj>,
    // Thread-local control.
    readers: map<Tid, Reader>,
    hand: Hand,
    // History: transformers applied to copies, how many of them are published, epoch advances,
    // `retire` calls, pool size at the last advance, copies taken since then, scans that met a reader.
    initial: T,
    log: seq<T -> T>,
    published: nat,
    advances: nat,
    retires: nat,
    pool: nat,
    copies: nat,
    blocked: nat)
  {
    function ReaderOf(t: Tid): Reader {
      if t in readers then readers[t] else Out
    }
  }

  datatype ReaderAction =
    | LoadEpoch(t: Tid)
    | StoreSlot(t: Tid)
    | LoadPtr(t: Tid)
    | Release(t: Tid)

  datatype UpdaterAction =
    | GetCopy
    | Write(effect: T -> T)
    | Exchange
    | Push
    | AccessSlots
    | ReadSlot(t: Tid)
    | Reclaim
    | Flip

  function Init(concurrency: Positive, initial: T): Mem {
    Mem(concurrency, 0, false, Lists([], []), [], map[], map[0 := initial], 1, [], map[], Empty,
        initial, [], 0, 0, 0, 0, 0, 0)
  }

  predicate ReaderEnabled(m: Mem, a: ReaderAction) {
    match a
    case LoadEpoch(t) => m.ReaderOf(t).Out?
    case StoreSlot(t) => m.ReaderOf(t).Loaded?
    case LoadPtr(t) => m.ReaderOf(t).Stored?
    case Release(t) => m.ReaderOf(t).Holding?
  }

  function ReaderDo(m: Mem, a: ReaderAction): Mem
    requires ReaderEnabled(m, a)
  {
    match a
    case LoadEpoch(t) =>
      m.(readers := m.readers[t := Loaded(m.epoch)])
    case StoreSlot(t) =>
      var e := m.ReaderOf(t).stamp;
      m.(slots := m.slots[t := Label(e)],
         readers := m.readers[t := Stored(e, m.advances, Passed(m, t) && e != m.epoch)])
    case LoadPtr(t) =>
      var r := m.ReaderOf(t);
      m.(readers := m.readers[t := Holding(r.stamp, r.since, r.late, m.ptr, m.published)])
    case Release(t) =>
      m.(slots := m.slots[t := 0], readers := m.readers[t := Out])
  }

  /** The running or completed scan will not read the slot of `t` any more. A thread whose slot did
      not exist when the scan began counts as passed. */
  predicate Passed(m: Mem, t: Tid) {
    m.hand.Reclaimed? || (m.hand.Scanning? && t !in m.hand.pending)
  }

  predicate UpdaterEnabled(m: Mem, a: UpdaterAction) {
    match a
    case GetCopy => m.hand.Empty? && m.ptr in m.heap
    case Write(_) => m.hand.Copy? && m.hand.obj in m.heap
    case Exchange => m.hand.Copy?
    case Push => m.hand.Old?
    case AccessSlots => m.hand.Due?
    case ReadSlot(t) => m.hand.Scanning? && t in m.hand.pending && t in m.slots
    case Reclaim => m.hand == Scanning({})
    case Flip => m.hand.Reclaimed?
  }

  function UpdaterDo(m: Mem, a: UpdaterAction): Mem
    requires UpdaterEnabled(m, a)
  {
    match a
    case GetCopy =>
      if m.finished == [] then
        m.(heap := m.heap[m.created := m.heap[m.ptr]], created := m.created + 1,
           hand := Copy(m.created), copies := m.copies + 1)
      else
        var copied := m.finished[|m.finished| - 1];
        m.(heap := m.heap[copied := m.heap[m.ptr]], finished := m.finished[..|m.finished| - 1],
           hand := Copy(copied), copies := m.copies + 1)
    case Write(f) =>
      m.(heap := m.heap[m.hand.obj := f(m.heap[m.hand.obj])], log := m.log + [f])
    case Exchange =>
      m.(ptr := m.hand.obj, hand := Old(m.ptr), published := |m.log|)
    case Push =>
      var list := m.lists.At(m.epoch) + [m.hand.obj];
      m.(lists := m.lists.Put(m.epoch, list), retires := m.retires + 1,
         hand := if |list| < m.concurrency then Empty else Due)
    case AccessSlots =>
      m.(hand := Scanning(m.slots.Keys))
    case ReadSlot(t) =>
      if m.slots[t] == Label(!m.epoch) then
        m.(hand := Empty, blocked := m.blocked + 1)
      else
        m.(hand := Scanning(m.hand.pending - {t}))
    case Reclaim =>
      m.(finished := m.lists.At(!m.epoch), lists := m.lists.Put(!m.epoch, []),
         heap := m.heap - (set x | x in m.finished), freed := m.freed + m.finished,
         hand := Reclaimed)
    case Flip =>
      m.(epoch := !m.epoch, hand := Empty, advances := m.advances + 1,
         pool := |m.finished|, copies := 0)
  }

  // ---------------------------------------------------------------------------------------------
  // Ownership: every object ever created is in exactly one place.

  /** How often `x` occurs in the memory the cell still has. */
  function Kept(m: Mem, x: Obj): nat {
    (if x == m.ptr then 1 else 0)
    + (if (m.hand.Copy? || m.hand.Old?) && x == m.hand.obj then 1 else 0)
    + multiset(m.lists.zero)[x] + multiset(m.lists.one)[x] + multiset(m.finished)[x]
  }

  ghost predicate Partition(m: Mem) {
    && (forall x: Obj :: Kept(m, x) + multiset(m.freed)[x] == if x < m.created then 1 else 0)
    && (forall x: Obj :: x in m.heap <==> Kept(m, x) == 1)
  }

  // ---------------------------------------------------------------------------------------------
  // Grace period.

  ghost predicate SlotsMirrorReaders(m: Mem) {
    && (forall t :: m.ReaderOf(t).Locked() ==> t in m.slots && m.slots[t] == Label(m.ReaderOf(t).stamp))
    && (forall t :: t in m.slots && !m.ReaderOf(t).Locked() ==> m.slots[t] == 0)
    && (m.hand.Scanning? ==> m.hand.pending <= m.slots.Keys)
    && (m.hand.Reclaimed? ==> m.lists.At(!m.epoch) == [])
  }

  ghost predicate Protected(m: Mem, t: Tid)
    requires m.ReaderOf(t).Holding?
  {
    var r := m.ReaderOf(t);
    && (r.obj == m.ptr || m.hand == Old(r.obj) || r.obj in m.lists.zero || r.obj in m.lists.one)
    && (r.obj in m.lists.At(!m.epoch) ==> r.stamp != m.epoch && !Passed(m, t))
    && (r.obj in m.lists.At(m.epoch) && Passed(m, t) ==> r.stamp == m.epoch)
  }

  ghost predicate Grace(m: Mem) {
    forall t :: m.ReaderOf(t).Holding? ==> Protected(m, t)
  }

  // ---------------------------------------------------------------------------------------------
  // Values.

  ghost predicate Values(m: Mem) {
    && m.published <= |m.log|
    && m.ptr in m.heap
    && m.heap[m.ptr] == RunAll(m.initial, m.log[..m.published])
    && (m.hand.Copy? ==> m.hand.obj in m.heap && m.heap[m.hand.obj] == RunAll(m.initial, m.log))
    && (!m.hand.Copy? ==> m.published == |m.log|)
  }

  /** What a reader sees through its pointer: the initial value after the first `seen` transformers. */
  ghost predicate Snapshot(m: Mem, r: Reader)
    requires r.Holding?
  {
    && r.obj in m.heap
    && r.seen <= m.published <= |m.log|
    && m.heap[r.obj] == RunAll(m.initial, m.log[..r.seen])
  }

  ghost predicate Snapshots(m: Mem) {
    && Values(m)
    && (forall t :: m.ReaderOf(t).Holding? ==> Snapshot(m, m.ReaderOf(t)))
  }

  // ---------------------------------------------------------------------------------------------
  // Epoch lag.

  ghost predicate LagOk(m: Mem, t: Tid)
    requires m.ReaderOf(t).Locked()
  {
    var r := m.ReaderOf(t);
    var late := if r.late then 1 else 0;
    && r.since <= m.advances
    && m.advances - r.since <= 1 + late
    && (r.stamp == m.epoch ==> m.advances - r.since == late)
    && (r.stamp != m.epoch && Passed(m, t) ==> r.late && m.advances == r.since)
  }

  ghost predicate Lag(m: Mem) {
    forall t :: m.ReaderOf(t).Locked() ==> LagOk(m, t)
  }

  // ---------------------------------------------------------------------------------------------
  // Sizes.

  ghost predicate Sizes(m: Mem) {
    && m.epoch == (m.advances % 2 == 1)
    && m.advances * m.concurrency + |m.lists.At(m.epoch)| <= m.retires
    && |m.lists.At(m.epoch)| + (if m.hand.Copy? || m.hand.Old? then 1 else 0) == m.copies
    && (!m.hand.Reclaimed? ==> |m.finished| == if m.copies < m.pool then m.pool - m.copies else 0)
    && (m.hand.Due? || m.hand.Scanning? || m.hand.Reclaimed? ==> m.concurrency <= |m.lists.At(m.epoch)|)
  }

  /** The sizes as long as no scan has met a reader of the previous epoch. */
  ghost predicate Steady(m: Mem) {
    var c := m.concurrency;
    var previous := |m.lists.At(!m.epoch)|;
    && m.freed == []
    && m.copies <= c
    && (m.advances <= 1 ==> m.retires == (if m.advances == 0 then 0 else c) + |m.lists.At(m.epoch)|)
    && (m.hand.Due? || m.hand.Scanning? || m.hand.Reclaimed? <==> |m.lists.At(m.epoch)| == c)
    && m.created == 1 + (if m.advances == 0 then 0 else if m.advances == 1 then c else 2 * c)
                      + (if m.advances <= 1 then m.copies else 0)
    && m.pool == (if m.advances <= 1 then 0 else c)
    && (m.hand.Reclaimed? ==> |m.finished| == if m.advances == 0 then 0 else c)
    && (!m.hand.Reclaimed? ==> previous == if m.advances == 0 then 0 else c)
  }

  ghost predicate Inv(m: Mem) {
    && Partition(m)
    && SlotsMirrorReaders(m)
    && Grace(m)
    && Snapshots(m)
    && Lag(m)
    && Sizes(m)
    && (m.blocked == 0 ==> Steady(m))
  }

  lemma InitInv(concurrency: Positive, initial: T)
    ensures Inv(Init(concurrency, initial))
  {
  }

  // ---------------------------------------------------------------------------------------------
  // Preservation.

  lemma SamePlaces(m: Mem, m': Mem)
    requires Partition(m) && m'.ptr == m.ptr && m'.lists == m.lists && m'.finished == m.finished
    requires m'.freed == m.freed && m'.created == m.created && m'.heap.Keys == m.heap.Keys
    requires !m.hand.Copy? && !m.hand.Old? ==> !m'.hand.Copy? && !m'.hand.Old?
    requires m.hand.Copy? || m.hand.Old? ==> m'.hand == m.hand
    ensures Partition(m')
  {
    assert forall x :: Kept(m', x) == Kept(m, x);
  }

  lemma ReaderPartition(m: Mem, a: ReaderAction)
    requires Partition(m) && ReaderEnabled(m, a)
    ensures Partition(ReaderDo(m, a))
  {
    SamePlaces(m, ReaderDo(m, a));
  }

  lemma ReaderSlots(m: Mem, a: ReaderAction)
    requires SlotsMirrorReaders(m) && ReaderEnabled(m, a)
    ensures SlotsMirrorReaders(ReaderDo(m, a))
  {
  }

  lemma ReaderGrace(m: Mem, a: ReaderAction)
    requires Partition(m) && Grace(m) && ReaderEnabled(m, a)
    ensures Grace(ReaderDo(m, a))
  {
    var m' := ReaderDo(m, a);
      assert Kept(m, m.ptr) + multiset(m.freed)[m.ptr] <= 1;
    forall t | m'.ReaderOf(t).Holding? ensures Protected(m', t) {
      assert m.ReaderOf(t).Holding? ==> Protected(m, t);
      assert t != a.t ==> m'.ReaderOf(t) == m.ReaderOf(t);
    }
  }

  lemma ReaderSnapshots(m: Mem, a: ReaderAction)
    requires Snapshots(m) && ReaderEnabled(m, a)
    ensures Snapshots(ReaderDo(m, a))
  {
    var m' := ReaderDo(m, a);
    forall t | m'.ReaderOf(t).Holding? ensures Snapshot(m', m'.ReaderOf(t)) {
      assert t != a.t ==> m'.ReaderOf(t) == m.ReaderOf(t);
    }
  }

  lemma ReaderLag(m: Mem, a: ReaderAction)
    requires Lag(m) && ReaderEnabled(m, a)
    ensures Lag(ReaderDo(m, a))
  {
    var m' := ReaderDo(m, a);
    forall t | m'.ReaderOf(t).Locked() ensures LagOk(m', t) {
      assert m.ReaderOf(t).Locked() ==> LagOk(m, t);
      assert t != a.t ==> m'.ReaderOf(t) == m.ReaderOf(t);
    }
  }

  lemma ReaderPreserves(m: Mem, a: ReaderAction)
    requires Inv(m) && ReaderEnabled(m, a)
    ensures Inv(ReaderDo(m, a))
  {
    ReaderPartition(m, a);
    ReaderSlots(m, a);
    ReaderGrace(m, a);
    ReaderSnapshots(m, a);
    ReaderLag(m, a);
  }

  lemma AllocatePartition(m: Mem)
    requires Partition(m) && UpdaterEnabled(m, GetCopy) && m.finished == []
    ensures Partition(UpdaterDo(m, GetCopy))
  {
    var m' := UpdaterDo(m, GetCopy);
    assert Kept(m, m.created) + multiset(m.freed)[m.created] == 0;
    assert forall x: Obj :: Kept(m', x) == Kept(m, x) + if x == m.created then 1 else 0;
  }

  lemma ReusePartition(m: Mem)
    requires Partition(m) && UpdaterEnabled(m, GetCopy) && m.finished != []
    ensures Partition(UpdaterDo(m, GetCopy))
  {
    var m' := UpdaterDo(m, GetCopy);
    var copied := m.finished[|m.finished| - 1];
    assert m.finished == m'.finished + [copied];
    assert Kept(m, copied) == 1;
    assert forall x: Obj :: Kept(m', x) == Kept(m, x);
  }

  lemma PushPartition(m: Mem)
    requires Partition(m) && UpdaterEnabled(m, Push)
    ensures Partition(UpdaterDo(m, Push))
  {
    var m' := UpdaterDo(m, Push);
    assert forall x :: Kept(m', x) == Kept(m, x);
  }

  lemma ReclaimPartition(m: Mem)
    requires Partition(m) && UpdaterEnabled(m, Reclaim)
    ensures Partition(UpdaterDo(m, Reclaim))
  {
    var m' := UpdaterDo(m, Reclaim);
    forall x: Obj
      ensures Kept(m', x) + multiset(m'.freed)[x] == if x < m'.created then 1 else 0
      ensures x in m'.heap <==> Kept(m', x) == 1
    {
      assert Kept(m, x) + multiset(m.freed)[x] == if x < m.created then 1 else 0;
      assert Kept(m, x) == Kept(m', x) + multiset(m.finished)[x];
    }
  }

  lemma ExchangePartition(m: Mem)
    requires Partition(m) && UpdaterEnabled(m, Exchange)
    ensures Partition(UpdaterDo(m, Exchange))
  {
    assert forall x :: Kept(UpdaterDo(m, Exchange), x) == Kept(m, x);
  }

  lemma UpdaterPartition(m: Mem, a: UpdaterAction)
    requires Partition(m) && UpdaterEnabled(m, a)
    ensures Partition(UpdaterDo(m, a))
  {
    if a.GetCopy? && m.finished == [] {
      AllocatePartition(m);
    } else if a.GetCopy? {
      ReusePartition(m);
    } else if a.Push? {
      PushPartition(m);
    } else if a.Reclaim? {
      ReclaimPartition(m);
    } else if a.Exchange? {
      ExchangePartition(m);
    } else {
      SamePlaces(m, UpdaterDo(m, a));
    }
  }

  lemma UpdaterSlots(m: Mem, a: UpdaterAction)
    requires SlotsMirrorReaders(m) && UpdaterEnabled(m, a)
    ensures SlotsMirrorReaders(UpdaterDo(m, a))
  {
  }

  lemma ReclaimProtects(m: Mem, t: Tid)
    requires SlotsMirrorReaders(m) && UpdaterEnabled(m, Reclaim)
    requires m.ReaderOf(t).Holding? && Protected(m, t)
    ensures Protected(UpdaterDo(m, Reclaim), t)
  {
    assert Passed(m, t);
  }

  lemma FlipProtects(m: Mem, t: Tid)
    requires SlotsMirrorReaders(m) && UpdaterEnabled(m, Flip)
    requires m.ReaderOf(t).Holding? && Protected(m, t)
    ensures Protected(UpdaterDo(m, Flip), t)
  {
    assert Passed(m, t);
  }

  /** The crux of the scan: a slot that does not contain the label of the previous epoch belongs to a
      thread that holds nothing of the previous list. */
  lemma ReadSlotProtects(m: Mem, u: Tid, t: Tid)
    requires SlotsMirrorReaders(m) && UpdaterEnabled(m, ReadSlot(u))
    requires m.ReaderOf(t).Holding? && Protected(m, t)
    ensures Protected(UpdaterDo(m, ReadSlot(u)), t)
  {
  }

  lemma UpdateProtects(m: Mem, a: UpdaterAction, t: Tid)
    requires Partition(m) && SlotsMirrorReaders(m) && UpdaterEnabled(m, a)
    requires a.GetCopy? || a.Write? || a.Exchange? || a.Push? || a.AccessSlots?
    requires m.ReaderOf(t).Holding? && Protected(m, t)
    ensures Protected(UpdaterDo(m, a), t)
  {
    assert m.hand.Copy? || m.hand.Old? ==> Kept(m, m.hand.obj) + multiset(m.freed)[m.hand.obj] <= 1;
    assert Kept(m, m.ptr) + multiset(m.freed)[m.ptr] <= 1;
  }

  lemma StillProtected(m: Mem, a: UpdaterAction, t: Tid)
    requires Partition(m) && SlotsMirrorReaders(m) && UpdaterEnabled(m, a)
    requires m.ReaderOf(t).Holding? && Protected(m, t)
    ensures Protected(UpdaterDo(m, a), t)
  {
    match a
    case Reclaim => ReclaimProtects(m, t);
    case Flip => FlipProtects(m, t);
    case ReadSlot(u) => ReadSlotProtects(m, u, t);
    case _ => UpdateProtects(m, a, t);
  }

  lemma UpdaterGrace(m: Mem, a: UpdaterAction)
    requires Partition(m) && SlotsMirrorReaders(m) && Grace(m) && UpdaterEnabled(m, a)
    ensures Grace(UpdaterDo(m, a))
  {
    var m' := UpdaterDo(m, a);
    forall t | m'.ReaderOf(t).Holding? ensures Protected(m', t) {
      assert m'.ReaderOf(t) == m.ReaderOf(t);
      StillProtected(m, a, t);
    }
  }

  /** The object a reader holds is alive and out of reach of the pool and of the updater. */
  lemma HeldIsSafe(m: Mem, t: Tid)
    requires Partition(m) && Grace(m) && m.ReaderOf(t).Holding?
    ensures var p := m.ReaderOf(t).obj;
      p in m.heap && p !in m.freed && p !in m.finished && m.hand != Copy(p)
  {
    var p := m.ReaderOf(t).obj;
    assert Protected(m, t);
    assert Kept(m, p) + multiset(m.freed)[p] <= 1;
  }

  lemma UpdaterKeepsSnapshot(m: Mem, a: UpdaterAction, r: Reader)
    requires UpdaterEnabled(m, a) && r.Holding? && Snapshot(m, r)
    requires r.obj < m.created && r.obj !in m.finished && m.hand != Copy(r.obj)
    ensures Snapshot(UpdaterDo(m, a), r)
  {
    assert UpdaterDo(m, a).log[..r.seen] == m.log[..r.seen];
  }

  lemma UpdaterValues(m: Mem, a: UpdaterAction)
    requires Partition(m) && Values(m) && UpdaterEnabled(m, a)
    ensures Values(UpdaterDo(m, a))
  {
    var m' := UpdaterDo(m, a);
    assert m.log[..|m.log|] == m.log && m'.log[..|m'.log|] == m'.log;
    assert m'.log[..m.published] == m.log[..m.published];
    assert Kept(m, m.ptr) + multiset(m.freed)[m.ptr] <= 1;
    assert Kept(m, m.created) == 0;
  }

  lemma UpdaterSnapshots(m: Mem, a: UpdaterAction)
    requires Partition(m) && Grace(m) && Snapshots(m) && UpdaterEnabled(m, a)
    ensures forall t :: UpdaterDo(m, a).ReaderOf(t).Holding? ==> Snapshot(UpdaterDo(m, a), UpdaterDo(m, a).ReaderOf(t))
  {
    var m' := UpdaterDo(m, a);
    forall t | m'.ReaderOf(t).Holding? ensures Snapshot(m', m'.ReaderOf(t)) {
      assert m'.ReaderOf(t) == m.ReaderOf(t);
      HeldIsSafe(m, t);
      assert Kept(m, m.ReaderOf(t).obj) == 1;
      UpdaterKeepsSnapshot(m, a, m.ReaderOf(t));
    }
  }

  lemma UpdaterLag(m: Mem, a: UpdaterAction)
    requires SlotsMirrorReaders(m) && Lag(m) && UpdaterEnabled(m, a)
    ensures Lag(UpdaterDo(m, a))
  {
    var m' := UpdaterDo(m, a);
    forall t | m'.ReaderOf(t).Locked() ensures LagOk(m', t) {
      assert m'.ReaderOf(t) == m.ReaderOf(t);
      assert LagOk(m, t);
    }
  }

  lemma FlipSizes(m: Mem)
    requires SlotsMirrorReaders(m) && Sizes(m) && UpdaterEnabled(m, Flip)
    ensures Sizes(UpdaterDo(m, Flip))
  {
    assert (m.advances + 1) * m.concurrency == m.advances * m.concurrency + m.concurrency;
  }

  lemma UpdaterSizes(m: Mem, a: UpdaterAction)
    requires SlotsMirrorReaders(m) && Sizes(m) && UpdaterEnabled(m, a)
    ensures Sizes(UpdaterDo(m, a))
  {
    if a.Flip? {
      FlipSizes(m);
    } else {
      assert UpdaterDo(m, a).advances == m.advances && UpdaterDo(m, a).epoch == m.epoch;
    }
  }

  lemma FlipSteady(m: Mem)
    requires SlotsMirrorReaders(m) && Sizes(m) && Steady(m) && UpdaterEnabled(m, Flip)
    ensures Steady(UpdaterDo(m, Flip))
  {
    assert (m.advances + 1) * m.concurrency == m.advances * m.concurrency + m.concurrency;
  }

  lemma PushSteady(m: Mem)
    requires Sizes(m) && Steady(m) && UpdaterEnabled(m, Push)
    ensures Steady(UpdaterDo(m, Push))
  {
    var m' := UpdaterDo(m, Push);
    assert |m'.lists.At(m.epoch)| == |m.lists.At(m.epoch)| + 1 <= m.concurrency;
  }

  lemma GetCopySteady(m: Mem)
    requires Sizes(m) && Steady(m) && UpdaterEnabled(m, GetCopy)
    ensures Steady(UpdaterDo(m, GetCopy))
  {
  }

  lemma ReclaimSteady(m: Mem)
    requires Sizes(m) && Steady(m) && UpdaterEnabled(m, Reclaim)
    ensures Steady(UpdaterDo(m, Reclaim))
  {
    assert m.finished == [];
    assert UpdaterDo(m, Reclaim).lists.At(m.epoch) == m.lists.At(m.epoch);
  }

  lemma SameSizes(m: Mem, m': Mem)
    requires Steady(m) && m'.concurrency == m.concurrency && m'.epoch == m.epoch && m'.lists == m.lists
    requires m'.finished == m.finished && m'.freed == m.freed && m'.created == m.created
    requires m'.advances == m.advances && m'.retires == m.retires
    requires m'.pool == m.pool && m'.copies == m.copies
    requires (m.hand.Due? || m.hand.Scanning?) == (m'.hand.Due? || m'.hand.Scanning?)
    requires m.hand.Reclaimed? == m'.hand.Reclaimed?
    ensures Steady(m')
  {
    assert m'.lists.At(m.epoch) == m.lists.At(m.epoch) && m'.lists.At(!m.epoch) == m.lists.At(!m.epoch);
  }

  lemma ReadSlotSteady(m: Mem, t: Tid)
    requires Steady(m) && UpdaterEnabled(m, ReadSlot(t)) && UpdaterDo(m, ReadSlot(t)).blocked == 0
    ensures Steady(UpdaterDo(m, ReadSlot(t)))
  {
    assert m.slots[t] != Label(!m.epoch);
    SameSizes(m, m.(hand := Scanning(m.hand.pending - {t})));
  }

  lemma UpdaterSteady(m: Mem, a: UpdaterAction)
    requires SlotsMirrorReaders(m) && Sizes(m) && Steady(m) && UpdaterEnabled(m, a)
    requires UpdaterDo(m, a).blocked == 0
    ensures Steady(UpdaterDo(m, a))
  {
    match a
    case Flip => FlipSteady(m);
    case Push => PushSteady(m);
    case GetCopy => GetCopySteady(m);
    case Reclaim => ReclaimSteady(m);
    case ReadSlot(t) => ReadSlotSteady(m, t);
    case _ => SameSizes(m, UpdaterDo(m, a));
  }

  lemma UpdaterPreserves(m: Mem, a: UpdaterAction)
    requires Inv(m) && UpdaterEnabled(m, a)
    ensures Inv(UpdaterDo(m, a))
  {
    UpdaterPartition(m, a);
    UpdaterSlots(m, a);
    UpdaterGrace(m, a);
    UpdaterValues(m, a);
    UpdaterSnapshots(m, a);
    UpdaterLag(m, a);
    UpdaterSizes(m, a);
    if UpdaterDo(m, a).blocked == 0 {
      assert m.blocked == 0;
      UpdaterSteady(m, a);
    }
  }

  // ---------------------------------------------------------------------------------------------
  // Frames.

  /** Readers never touch what belongs to the updater. */
  lemma ReaderFrame(m: Mem, a: ReaderAction)
    requires ReaderEnabled(m, a)
    ensures ReaderDo(m, a) == m.(slots := ReaderDo(m, a).slots, readers := ReaderDo(m, a).readers)
    ensures m.slots.Keys <= ReaderDo(m, a).slots.Keys && |ReaderDo(m, a).slots| <= |m.slots| + 1
    ensures forall t :: t != a.t ==> ReaderDo(m, a).ReaderOf(t) == m.ReaderOf(t)
  {
  }

  /** The updater never touches what belongs to the readers. */
  lemma UpdaterFrame(m: Mem, a: UpdaterAction)
    requires UpdaterEnabled(m, a)
    ensures var m' := UpdaterDo(m, a);
      && m'.readers == m.readers && m'.slots == m.slots
      && m'.concurrency == m.concurrency && m'.initial == m.initial
      && m.advances <= m'.advances
  {
  }

  ghost predicate Distinct(list: seq<Obj>) {
    forall i, j :: 0 <= i < j < |list| ==> list[i] != list[j]
  }

  lemma DistinctIfOnce(list: seq<Obj>)
    requires forall x :: x in list ==> multiset(list)[x] == 1
    ensures Distinct(list)
  {
    forall i, j | 0 <= i < j < |list| ensures list[i] != list[j] {
      assert list == list[..j] + [list[j]] + list[j + 1..];
      assert list[i] in list[..j];
      assert multiset(list)[list[j]] == multiset(list[..j])[list[j]] + 1 + multiset(list[j + 1..])[list[j]];
    }
  }

  /** No list holds an object twice, and all their objects are alive. */
  lemma ListsAlive(m: Mem)
    requires Partition(m)
    ensures Distinct(m.lists.zero) && Distinct(m.lists.one) && Distinct(m.finished)
    ensures forall x :: x in m.lists.zero || x in m.lists.one || x in m.finished ==> x in m.heap
  {
    forall x | x in m.lists.zero || x in m.lists.one || x in m.finished
      ensures multiset(m.lists.zero)[x] + multiset(m.lists.one)[x] + multiset(m.finished)[x] == 1 == Kept(m, x)
    {
      assert Kept(m, x) + multiset(m.freed)[x] <= 1;
    }
    DistinctIfOnce(m.lists.zero);
    DistinctIfOnce(m.lists.one);
    DistinctIfOnce(m.finished);
  }

  // ---------------------------------------------------------------------------------------------
  // Counting objects.

  function Objects(n: nat): multiset<Obj> {
    if n == 0 then multiset{} else Objects(n - 1) + multiset{n - 1}
  }

  lemma {:induction false} ObjectsOnce(n: nat)
    ensures |Objects(n)| == n
    ensures forall x: Obj :: Objects(n)[x] == if x < n then 1 else 0
  {
    if n > 0 {
      ObjectsOnce(n - 1);
    }
  }

  /** Places with their multiplicities, as one multiset. */
  function Places(m: Mem): multiset<Obj> {
    multiset{m.ptr} + (if m.hand.Copy? || m.hand.Old? then multiset{m.hand.obj} else multiset{})
    + multiset(m.lists.zero) + multiset(m.lists.one) + multiset(m.finished)
  }

  lemma AliveObjects(m: Mem)
    requires Partition(m)
    ensures Places(m) == multiset(m.heap.Keys)
    ensures Places(m) + multiset(m.freed) == Objects(m.created)
    ensures |m.heap| == 1 + (if m.hand.Copy? || m.hand.Old? then 1 else 0)
                        + |m.lists.zero| + |m.lists.one| + |m.finished| == m.created - |m.freed|
  {
    ObjectsOnce(m.created);
    assert forall x :: Places(m)[x] == Kept(m, x);
    assert forall x :: Kept(m, x) <= 1;
    assert |multiset(m.heap.Keys)| == |m.heap|;
  }
}
