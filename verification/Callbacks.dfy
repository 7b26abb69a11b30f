/** What the cell protects and what is done to it.

    `T` is the protected type of `rcu_protected<T>`: nothing is known about it. A callback passed to
    `update` is the transformer it applies to the private copy, together with the `update` calls it
    makes itself while it runs. */
module Callbacks {

  type T(!new)

  datatype Callback = Callback(effect: T -> T, nested: seq<Callback>)

  /** One call of `update`. The ticket is its place in the order of the `fetch_add`s, so that two
      calls passing equal callbacks remain two calls. */
  datatype Call = Call(ticket: nat, callback: Callback)

  /** The reference meaning of updating: apply the transformers to one object, one at a time. */
  function RunAll(initial: T, log: seq<T -> T>): T {
    if log == [] then initial else log[|log| - 1](RunAll(initial, log[..|log| - 1]))
  }

  function Effects(calls: seq<Call>): seq<T -> T> {
    seq(|calls|, i requires 0 <= i < |calls| => calls[i].callback.effect)
  }
}
