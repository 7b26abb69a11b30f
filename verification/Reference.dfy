/** The simple cell that the benchmarks compare with: a mutex around one object. */
module Reference {
  import opened Callbacks
  import opened System
  import Guarantees

  class LockProtected {
    var value: T

    constructor (initial: T)
      ensures value == initial
    {
      value := initial;
    }

    /** `lock_protected::update`: under the lock, the callback changes the one object. */
    method Update(f: Callback)
      modifies this
      ensures value == f.effect(old(value))
    {
      value := f.effect(value);
    }
  }

  /** Makes the calls on a `LockProtected` one after another and reads the result. */
  method Replay(initial: T, calls: seq<Call>) returns (value: T)
    ensures value == RunAll(initial, Effects(calls))
  {
    var cell := new LockProtected(initial);
    var i := 0;
    assert Effects(calls[..0]) == [];
    while i < |calls|
      invariant i <= |calls|
      invariant cell.value == RunAll(initial, Effects(calls[..i]))
    {
      cell.Update(calls[i].callback);
      assert Effects(calls[..i + 1]) == Effects(calls[..i]) + [calls[i].callback.effect];
      assert Effects(calls[..i + 1])[..i] == Effects(calls[..i]);
      i := i + 1;
    }
    assert calls[..i] == calls;
    value := cell.value;
  }

  /** The mutex and the RCU cell agree: replaying the calls on the former, in the order in which the
      latter applied them, gives what the latter has published when it is quiescent. */
  method ReplayQuiescent(s: State) returns (value: T)
    requires Reachable(s) && s.ledger.updateCnt == 0
    ensures s.mem.ptr in s.mem.heap && value == s.mem.heap[s.mem.ptr]
    ensures multiset(s.ledger.applied) == multiset(s.ledger.registered)
  {
    Guarantees.QuiescentValue(s);
    value := Replay(s.mem.initial, s.ledger.applied);
  }
}
