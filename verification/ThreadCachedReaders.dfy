/** The per-thread reader slots. A thread gets its slot, containing 0, when it first uses it. */
module Readers {
  import opened Memory

  class ThreadCachedReaders {
    var epochReading: map<Tid, Byte>

    constructor ()
      ensures epochReading == map[]
    {
      epochReading := map[];
    }

    /** Bit 0 of the slot says that its thread is reading, bit 1 is the epoch, the other bits are 0. */
    method Increment(t: Tid, epoch: bool)
      modifies this
      ensures epochReading == old(epochReading)[t := Label(epoch)]
      ensures epochReading[t] % 2 == 1 && (epochReading[t] / 2 % 2 == 1 <==> epoch) && epochReading[t] < 4
    {
      var e := if epoch then 1 else 0;
      epochReading := epochReading[t := e * 2 + 1];
    }

    method Decrement(t: Tid)
      modifies this
      ensures epochReading == old(epochReading)[t := 0]
    {
      epochReading := epochReading[t := 0];
    }

    /** Does the slot of `t` show at this moment that its thread reads under `epoch`? */
    method Reads(t: Tid, epoch: bool) returns (reading: bool)
      requires t in epochReading
      ensures reading <==> epochReading[t] == Label(epoch)
      ensures epochReading[t] < 4 ==>
        (reading <==> epochReading[t] % 2 == 1 && (epochReading[t] / 2 % 2 == 1 <==> epoch))
    {
      reading := epochReading[t] == Label(epoch);
    }
  }
}
