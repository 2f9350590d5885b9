/** Calls to another system that may fail.  A failed call may or may not have taken effect. */
module Effects {
  datatype Effect = Done | FailedBefore | FailedAfter

  predicate Succeeds(e: Effect) { e.Done? }

  predicate TakesEffect(e: Effect) { !e.FailedBefore? }
}
