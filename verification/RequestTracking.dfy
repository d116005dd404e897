/** The request tracker: admission, the active count, and shutdown callers waiting for it to reach zero. */
module RequestTracking {
  import opened Wrappers
  import opened Sequences
  import opened Waiting

  datatype State = State(active: int, shutdown: bool, handlers: set<nat>, waiters: map<nat, Waiter>)

  /** `handlers` are the requests inside `track_request`. */
  datatype Event =
    | Enter(handler: nat, accepted: bool)
    | Exit(handler: nat)
    | BeginShutdown
    | Wait(waiter: nat)
    | Expire(waiter: nat)
    | Resume(waiter: nat, timeUp: bool)

  const INITIAL := State(0, false, {}, map[])

  predicate Drained(s: State) {
    s.active == 0
  }

  function NotifyIfDrained(s: State): State {
    if Drained(s) then s.(waiters := NotifyAll(s.waiters)) else s
  }

  function Step(s: State, e: Event): Option<State> {
    match e
    case Enter(h, accepted) =>
      if h in s.handlers || accepted == s.shutdown then None
      else Some(if accepted then s.(active := s.active + 1, handlers := s.handlers + {h}) else s)
    case Exit(h) =>
      if h !in s.handlers then None
      else Some(NotifyIfDrained(s.(active := s.active - 1, handlers := s.handlers - {h})))
    case BeginShutdown =>
      Some(NotifyIfDrained(s.(shutdown := true)))
    case Wait(w) =>
      if w in s.waiters then None else Some(s.(waiters := BeginWait(s.waiters, w, Drained(s))))
    case Expire(w) =>
      if CanExpire(s.waiters, w, true) then Some(s.(waiters := s.waiters[w := Expired])) else None
    case Resume(w, timeUp) =>
      if CanWake(s.waiters, w) then Some(s.(waiters := Wake(s.waiters, w, Drained(s), true, timeUp))) else None
  }

  function Exec(es: seq<Event>): Option<State> {
    if es == [] then Some(INITIAL)
    else
      match Exec(Front(es))
      case None => None
      case Some(s) => Step(s, Last(es))
  }

  lemma ExecExtends(es: seq<Event>, e: Event)
    requires Exec(es).Some?
    ensures Exec(es + [e]) == Step(Exec(es).value, e)
  {
    assert Front(es + [e]) == es;
  }

  /** The requests that have been admitted and have not ended. */
  function InProgress(es: seq<Event>): set<nat> {
    if es == [] then {}
    else
      match Last(es)
      case Enter(h, true) => InProgress(Front(es)) + {h}
      case Exit(h) => InProgress(Front(es)) - {h}
      case _ => InProgress(Front(es))
  }

  ghost predicate Inv(s: State) {
    s.active == |s.handlers| && (Drained(s) ==> NoneAsleep(s.waiters))
  }

  lemma StepKeepsInv(s: State, e: Event)
    requires Inv(s) && Step(s, e).Some?
    ensures Inv(Step(s, e).value)
  {
  }

  lemma {:induction false} HistoryOfState(es: seq<Event>)
    requires Exec(es).Some?
    ensures Exec(es).value.handlers == InProgress(es)
    ensures Exec(es).value.shutdown <==> BeginShutdown in es
  {
    if es != [] {
      HistoryOfState(Front(es));
      assert es == Front(es) + [Last(es)];
    }
  }

  lemma {:induction false} StateInvariant(es: seq<Event>)
    requires Exec(es).Some?
    ensures Inv(Exec(es).value)
  {
    if es != [] {
      StateInvariant(Front(es));
      StepKeepsInv(Exec(Front(es)).value, Last(es));
    }
  }

  /** The active count is the number of requests in progress, and there is no lost wakeup: a waiter that is
      asleep and has not been notified means that some request is still active. */
  lemma Invariant(es: seq<Event>)
    requires Exec(es).Some?
    ensures
      var s := Exec(es).value;
      && s.handlers == InProgress(es) && s.active == |InProgress(es)|
      && (s.shutdown <==> BeginShutdown in es)
      && (InProgress(es) == {} ==> forall w | w in s.waiters :: !s.waiters[w].Sleeping?)
  {
    HistoryOfState(es);
    StateInvariant(es);
  }

  lemma DrainedExactly(es: seq<Event>)
    requires Exec(es).Some?
    ensures Drained(Exec(es).value) <==> InProgress(es) == {}
  {
    Invariant(es);
  }

  /** `track_request` raises exactly when shutdown has begun. */
  lemma AdmittedUntilShutdown(es: seq<Event>, h: nat)
    requires Exec(es).Some? && h !in InProgress(es)
    ensures Exec(es + [Enter(h, true)]).Some? <==> BeginShutdown !in es
    ensures Exec(es + [Enter(h, false)]).Some? <==> BeginShutdown in es
  {
    Invariant(es);
    assert Front(es + [Enter(h, true)]) == es && Front(es + [Enter(h, false)]) == es;
  }

  /** The notification in `begin_shutdown` wakes nobody: whoever could be woken by it has been notified
      before, when the last request ended. */
  lemma ShutdownWakesNobody(es: seq<Event>)
    requires Exec(es).Some?
    ensures Exec(es + [BeginShutdown]).Some?
    ensures Exec(es + [BeginShutdown]).value.waiters == Exec(es).value.waiters
  {
    ExecExtends(es, BeginShutdown);
    Invariant(es);
    var waiters := Exec(es).value.waiters;
    assert NoneAsleep(waiters) ==> NotifyAll(waiters) == waiters;
  }

  /** "Drained after shutdown" is stable: from then on nothing is active, nobody is left asleep, and nobody
      who asks, or was asking, is told anything but True. */
  lemma {:induction false} DrainedForGood(before: seq<Event>, after: seq<Event>)
    requires Exec(before + after).Some?
    requires Exec(before).Some? && Exec(before).value.shutdown && Drained(Exec(before).value)
    ensures
      var s, s' := Exec(before).value, Exec(before + after).value;
      && s'.shutdown && s'.active == 0
      && (forall w | w in s'.waiters :: !s'.waiters[w].Sleeping?)
      && (forall w | w in s'.waiters && s'.waiters[w] == Answered(false) ::
            w in s.waiters && s.waiters[w] == Answered(false))
  {
    Invariant(before);
    if after == [] {
      assert before + after == before;
    } else {
      assert Front(before + after) == before + Front(after);
      DrainedForGood(before, Front(after));
      Invariant(before + Front(after));
    }
  }

  /** So each waiter still waiting then needs only the lock, and then it returns True. */
  lemma WaitersReturnTrue(es: seq<Event>, w: nat, timeUp: bool)
    requires Exec(es).Some? && Drained(Exec(es).value) && w in Exec(es).value.waiters
    ensures
      var waiter := Exec(es).value.waiters[w];
      waiter.Answered? ||
      (Exec(es + [Resume(w, timeUp)]).Some? && Exec(es + [Resume(w, timeUp)]).value.waiters[w] == Answered(true))
  {
    Invariant(es);
    assert Front(es + [Resume(w, timeUp)]) == es;
  }

  lemma AnswerStep(s: State, e: Event, w: nat)
    requires Step(s, e).Some? && w in Step(s, e).value.waiters && Step(s, e).value.waiters[w].Answered?
    requires Concerns(e, w)
    ensures !e.Expire? && (Step(s, e).value.waiters[w].answer <==> Drained(s))
  {
  }

  predicate Concerns(e: Event, w: nat) {
    (e.Wait? || e.Expire? || e.Resume?) && e.waiter == w
  }

  lemma {:induction false} ExpiryIsRecorded(es: seq<Event>, w: nat)
    requires Exec(es).Some? && w in Exec(es).value.waiters && Exec(es).value.waiters[w].Expired?
    ensures Expire(w) in es
  {
    if Last(es) != Expire(w) {
      ExpiryIsRecorded(Front(es), w);
    }
    assert es == Front(es) + [Last(es)];
  }

  /** Told False: the waiter had run out of time before, or with this very look at the predicate. */
  lemma RefusedAtTheEnd(es: seq<Event>, e: Event, w: nat)
    requires Exec(es).Some? && Step(Exec(es).value, e).Some? && Concerns(e, w)
    requires Step(Exec(es).value, e).value.waiters[w] == Answered(false)
    ensures Expire(w) in es || e == Resume(w, true)
  {
    var s := Exec(es).value;
    if w in s.waiters && s.waiters[w].Expired? {
      ExpiryIsRecorded(es, w);
    }
  }

  /** Over every run: at the last step k of a waiter it was told whether any request was in progress at that
      moment, and it is told False only at the end of its time. */
  lemma {:induction false} AnswersAreCurrent(es: seq<Event>, w: nat) returns (k: nat)
    requires Exec(es).Some? && w in Exec(es).value.waiters && Exec(es).value.waiters[w].Answered?
    ensures k < |es| && Concerns(es[k], w) && !es[k].Expire?
    ensures forall j | k < j < |es| :: !Concerns(es[j], w)
    ensures Exec(es).value.waiters[w].answer <==> InProgress(es[..k]) == {}
    ensures !Exec(es).value.waiters[w].answer ==> Expire(w) in es || es[k] == Resume(w, true)
  {
    var n := |es| - 1;
    assert es[..n] == Front(es) && es == Front(es) + [Last(es)];
    if Concerns(Last(es), w) {
      k := n;
      AnswerStep(Exec(Front(es)).value, Last(es), w);
      DrainedExactly(Front(es));
      if !Exec(es).value.waiters[w].answer {
        RefusedAtTheEnd(Front(es), Last(es), w);
      }
    } else {
      k := AnswersAreCurrent(Front(es), w);
      assert Front(es)[..k] == es[..k];
    }
  }

  /** A waiter can run out of time whenever it is asleep, and only then. */
  lemma TimeoutsHappen(es: seq<Event>, w: nat)
    requires Exec(es).Some?
    ensures Exec(es + [Expire(w)]).Some? <==> w in Exec(es).value.waiters && Exec(es).value.waiters[w].Sleeping?
  {
    ExecExtends(es, Expire(w));
  }

  lemma {:induction false} ExpiredUntilResumed(es: seq<Event>, i: nat, w: nat)
    requires Exec(es).Some? && i < |es| && es[i] == Expire(w)
    requires forall j | i < j < |es| :: !(es[j].Resume? && es[j].waiter == w)
    ensures w in Exec(es).value.waiters && Exec(es).value.waiters[w].Expired?
  {
    if i < |es| - 1 {
      ExpiredUntilResumed(Front(es), i, w);
      StaysExpired(Exec(Front(es)).value, Last(es), w);
    }
  }

  lemma StaysExpired(s: State, e: Event, w: nat)
    requires Step(s, e).Some? && w in s.waiters && s.waiters[w].Expired? && !(e.Resume? && e.waiter == w)
    ensures w in Step(s, e).value.waiters && Step(s, e).value.waiters[w].Expired?
  {
  }

  /** A timeout ends the wait: once waiter w has run out of time, its next step with the lock answers, with
      True exactly when no request is in progress then. */
  lemma TimeoutIsAnswered(es: seq<Event>, i: nat, w: nat, timeUp: bool)
    requires Exec(es).Some? && i < |es| && es[i] == Expire(w)
    requires forall j | i < j < |es| :: !(es[j].Resume? && es[j].waiter == w)
    ensures Exec(es + [Resume(w, timeUp)]).Some?
    ensures Exec(es + [Resume(w, timeUp)]).value.waiters[w] == Answered(InProgress(es) == {})
  {
    ExpiredUntilResumed(es, i, w);
    ExecExtends(es, Resume(w, timeUp));
    DrainedExactly(es);
  }

  lemma InProgressExtends(es: seq<Event>, e: Event)
    ensures InProgress(es + [e]) ==
      if e.Enter? && e.accepted then InProgress(es) + {e.handler}
      else if e.Exit? then InProgress(es) - {e.handler}
      else InProgress(es)
  {
    assert Front(es + [e]) == es;
  }

  datatype TrackerError = ShutdownStarted

  /** The tracker as the mutable object the source defines: one method per critical section. */
  class RequestTracker {
    var activeRequests: int
    var shutdownStarted: bool
    var waiters: map<nat, Waiter>
    ghost var handlers: set<nat>
    ghost var trace: seq<Event>

    ghost function View(): State
      reads this
    {
      State(activeRequests, shutdownStarted, handlers, waiters)
    }

    ghost predicate Valid()
      reads this
    {
      Exec(trace) == Some(View())
    }

    constructor ()
      ensures Valid() && trace == [] && activeRequests == 0 && !shutdownStarted && waiters == map[]
    {
      activeRequests, shutdownStarted, waiters, handlers, trace := 0, false, map[], {}, [];
    }

    method EnterRequest(ghost h: nat) returns (r: Result<(), TrackerError>)
      requires Valid() && h !in handlers
      modifies this
      ensures Valid() && trace == old(trace) + [Enter(h, r.Returned?)]
      ensures r.Raised? <==> BeginShutdown in old(trace)
      ensures handlers == if r.Returned? then old(handlers) + {h} else old(handlers)
      ensures activeRequests == old(activeRequests) + if r.Returned? then 1 else 0
      ensures InProgress(trace) == if r.Returned? then InProgress(old(trace)) + {h} else InProgress(old(trace))
      ensures waiters == old(waiters) && shutdownStarted == old(shutdownStarted)
    {
      Invariant(trace);
      InProgressExtends(trace, Enter(h, !shutdownStarted));
      if shutdownStarted {
        r := Raised(ShutdownStarted);
        ExecExtends(trace, Enter(h, false));
        trace := trace + [Enter(h, false)];
      } else {
        activeRequests, handlers := activeRequests + 1, handlers + {h};
        r := Returned(());
        ExecExtends(trace, Enter(h, true));
        trace := trace + [Enter(h, true)];
      }
    }

    /** Leaving `track_request`, whether the handler succeeded or raised. */
    method ExitRequest(ghost h: nat)
      requires Valid() && h in handlers
      modifies this
      ensures Valid() && trace == old(trace) + [Exit(h)] && handlers == old(handlers) - {h}
      ensures activeRequests == old(activeRequests) - 1 && shutdownStarted == old(shutdownStarted)
      ensures InProgress(trace) == InProgress(old(trace)) - {h}
      ensures waiters.Keys == old(waiters).Keys && forall w | w in waiters ::
        waiters[w] == if activeRequests == 0 && old(waiters)[w].Sleeping? then Notified else old(waiters)[w]
    {
      InProgressExtends(trace, Exit(h));
      activeRequests, handlers := activeRequests - 1, handlers - {h};
      if activeRequests == 0 {
        waiters := NotifyAll(waiters);
      }
      ExecExtends(trace, Exit(h));
      trace := trace + [Exit(h)];
    }

    method StartShutdown()
      requires Valid()
      modifies this
      ensures Valid() && trace == old(trace) + [BeginShutdown]
      ensures shutdownStarted && activeRequests == old(activeRequests) && waiters == old(waiters)
      ensures InProgress(trace) == InProgress(old(trace))
    {
      ShutdownWakesNobody(trace);
      InProgressExtends(trace, BeginShutdown);
      shutdownStarted := true;
      if activeRequests == 0 {
        waiters := NotifyAll(waiters);
      }
      ExecExtends(trace, BeginShutdown);
      trace := trace + [BeginShutdown];
    }

    method WaitUntilDrained(w: nat)
      requires Valid() && w !in waiters
      modifies this
      ensures Valid() && trace == old(trace) + [Wait(w)]
      ensures waiters == old(waiters)[w := if InProgress(old(trace)) == {} then Answered(true) else Sleeping]
      ensures activeRequests == old(activeRequests) && shutdownStarted == old(shutdownStarted)
    {
      DrainedExactly(trace);
      waiters := BeginWait(waiters, w, activeRequests == 0);
      ExecExtends(trace, Wait(w));
      trace := trace + [Wait(w)];
    }

    /** The timeout of a sleeping waiter; it still has to get the lock before it can return. */
    method GiveUp(w: nat)
      requires Valid() && w in waiters && waiters[w].Sleeping?
      modifies this
      ensures Valid() && trace == old(trace) + [Expire(w)] && waiters == old(waiters)[w := Expired]
      ensures activeRequests == old(activeRequests) && shutdownStarted == old(shutdownStarted)
    {
      waiters := waiters[w := Expired];
      ExecExtends(trace, Expire(w));
      trace := trace + [Expire(w)];
    }

    method ResumeWaiting(w: nat, timeUp: bool)
      requires Valid() && CanWake(waiters, w)
      modifies this
      ensures Valid() && trace == old(trace) + [Resume(w, timeUp)]
      ensures waiters.Keys == old(waiters).Keys && w in waiters
      ensures waiters[w] == Answered(true) <==> InProgress(old(trace)) == {}
      ensures waiters[w] == Answered(false) <==>
        InProgress(old(trace)) != {} && (timeUp || old(waiters)[w].Expired?)
      ensures waiters == old(waiters)[w := waiters[w]] && (!waiters[w].Answered? ==> waiters[w].Sleeping?)
      ensures activeRequests == old(activeRequests) && shutdownStarted == old(shutdownStarted)
    {
      DrainedExactly(trace);
      if activeRequests == 0 {
        waiters := waiters[w := Answered(true)];
      } else if waiters[w].Expired? || timeUp {
        waiters := waiters[w := Answered(false)];
      } else {
        waiters := waiters[w := Sleeping];
      }
      ExecExtends(trace, Resume(w, timeUp));
      trace := trace + [Resume(w, timeUp)];
    }
  }
}
