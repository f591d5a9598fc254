/** The field cache: `cache(fn)` wraps an accessor so that its first call
    runs the accessor and keeps the settled outcome, and every later call
    hands back that same outcome, whether it was a value or a failure. */
module FieldCache {
  import opened Wrappers

  /** How a stored promise settled: with a value, or rejected. */
  datatype Settled<T> = Fulfilled(value: T) | Rejected(reason: string)

  /** The closure `cache(fn)` returns, with its one captured slot. The
      accessor's own work is not visible here: each call to `Get` is handed
      the outcome the accessor would settle to if it ran now. */
  class Cache<T> {
    /** The captured `value` variable; `None` until the first call. */
    var slot: Option<Settled<T>>
    /** How many times the wrapped accessor has run. */
    ghost var runs: nat

    ghost predicate Valid()
      reads this
    {
      runs <= 1 && (slot.Some? <==> runs == 1)
    }

    /** `cache(fn)`: nothing has run yet. */
    constructor ()
      ensures Valid()
      ensures slot == None && runs == 0
    {
      slot := None;
      runs := 0;
    }

    /** A call of the cached closure. The first call runs the accessor and
        stores its outcome; later calls leave the slot alone and return what
        is stored, so a failure is replayed exactly like a value. */
    method Get(outcome: Settled<T>) returns (r: Settled<T>)
      requires Valid()
      modifies this
      ensures Valid()
      ensures old(slot).None? ==> r == outcome && slot == Some(outcome) && runs == 1
      ensures old(slot).Some? ==> r == old(slot).value && slot == old(slot) && runs == old(runs)
    {
      if slot.None? {
        slot := Some(outcome);
        runs := runs + 1;
      }
      r := slot.value;
    }
  }
}
