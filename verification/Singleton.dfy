/**
  The lazily created single instance behind `TaskManager.getInstance` and
  `OverdueTaskObserver.getInstance`: a static slot that is empty until the
  first call fills it with a freshly constructed instance.
 */
module Singleton {
  import opened Seqs

  datatype Slot<T> = Slot(instance: Option<T>)

  /** Returns the stored instance, creating `created` first if the slot is
      still empty; afterwards the slot holds the returned instance. */
  function GetInstance<T>(slot: Slot<T>, created: T): (r: (Slot<T>, T))
    ensures r.0.instance == Some(r.1)
    ensures slot.instance.Some? ==> r == (slot, slot.instance.value)
    ensures slot.instance.None? ==> r.1 == created
  {
    match slot.instance
    case Some(existing) => (slot, existing)
    case None => (Slot(Some(created)), created)
  }

  /** Two calls in a row hand out the same instance and the second leaves
      the slot alone, whatever the second call would have constructed. */
  lemma SecondCallSameInstance<T>(slot: Slot<T>, created1: T, created2: T)
    ensures GetInstance(GetInstance(slot, created1).0, created2) == GetInstance(slot, created1)
  {
  }
}
