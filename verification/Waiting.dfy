/** Waiting on a condition variable, with the three moments of a wait kept apart: falling asleep, being
    notified (or running out of time), and re-acquiring the lock to look at the predicate again. */
module Waiting {

  datatype Waiter = Sleeping | Notified | Expired | Answered(answer: bool)

  function NotifyAll(waiters: map<nat, Waiter>): map<nat, Waiter> {
    map w | w in waiters :: if waiters[w].Sleeping? then Notified else waiters[w]
  }

  /** The caller holds the lock: it returns at once if the predicate holds and goes to sleep if not. */
  function BeginWait(waiters: map<nat, Waiter>, w: nat, holds: bool): map<nat, Waiter> {
    waiters[w := if holds then Answered(true) else Sleeping]
  }

  /** Whether waiter w can run out of time.  A thread gives up only while asleep; a task is cancelled even
      if a notification has already reached it. */
  predicate CanExpire(waiters: map<nat, Waiter>, w: nat, rechecks: bool) {
    w in waiters && (waiters[w].Sleeping? || (waiters[w].Notified? && !rechecks))
  }

  predicate CanWake(waiters: map<nat, Waiter>, w: nat) {
    w in waiters && (waiters[w].Notified? || waiters[w].Expired?)
  }

  /** Waiter w has the lock again.  After a notification it looks at the predicate, and sleeps again unless
      its time is up.  After running out of time a thread looks once more; a task answers False. */
  function Wake(waiters: map<nat, Waiter>, w: nat, holds: bool, rechecks: bool, timeUp: bool): map<nat, Waiter>
    requires CanWake(waiters, w)
  {
    waiters[w :=
      if waiters[w].Expired? then Answered(rechecks && holds)
      else if holds then Answered(true)
      else if rechecks && timeUp then Answered(false)
      else Sleeping]
  }

  /** Nobody is asleep who should not be. */
  ghost predicate NoneAsleep(waiters: map<nat, Waiter>) {
    forall w | w in waiters :: !waiters[w].Sleeping?
  }

  /** From `before` to `after` nobody has been told False. */
  ghost predicate NoNewRefusal(before: map<nat, Waiter>, after: map<nat, Waiter>) {
    forall w | w in after && after[w] == Answered(false) :: w in before && before[w] == Answered(false)
  }
}
