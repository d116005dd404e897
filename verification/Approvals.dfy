/** Batch approval, in its threaded form and in its asynchronous form: required reviewers approve, callers
    wait for all of them.  The two differ in one point: a threaded waiter that runs out of time looks at the
    predicate once more, an asynchronous one answers False (`rechecks` tells them apart). */
module Approvals {
  import opened Wrappers
  import opened Sequences
  import opened Waiting

  datatype Config = Config(required: set<string>, rechecks: bool)

  datatype ApprovalError = EmptyName | NotRequired

  datatype State = State(approved: set<string>, waiters: map<nat, Waiter>)

  datatype Event =
    | Approve(reviewer: string, answer: Result<bool, ApprovalError>)
    | Wait(waiter: nat)
    | Expire(waiter: nat)
    | Resume(waiter: nat, timeUp: bool)

  const INITIAL := State({}, map[])

  predicate IsApproved(c: Config, s: State) {
    c.required <= s.approved
  }

  function Answer(c: Config, s: State, reviewer: string): Result<bool, ApprovalError> {
    if reviewer == "" then Raised(EmptyName)
    else if reviewer !in c.required then Raised(NotRequired)
    else Returned(reviewer !in s.approved)
  }

  function Step(c: Config, s: State, e: Event): Option<State> {
    match e
    case Approve(reviewer, answer) =>
      if answer != Answer(c, s, reviewer) then None
      else if answer == Returned(true) then Some(State(s.approved + {reviewer}, NotifyAll(s.waiters)))
      else Some(s)
    case Wait(w) =>
      if w in s.waiters then None else Some(s.(waiters := BeginWait(s.waiters, w, IsApproved(c, s))))
    case Expire(w) =>
      if CanExpire(s.waiters, w, c.rechecks) then Some(s.(waiters := s.waiters[w := Expired])) else None
    case Resume(w, timeUp) =>
      if CanWake(s.waiters, w) then
        Some(s.(waiters := Wake(s.waiters, w, IsApproved(c, s), c.rechecks, timeUp)))
      else None
  }

  function Exec(c: Config, es: seq<Event>): Option<State> {
    if es == [] then Some(INITIAL)
    else
      match Exec(c, Front(es))
      case None => None
      case Some(s) => Step(c, s, Last(es))
  }

  lemma ExecExtends(c: Config, es: seq<Event>, e: Event)
    requires Exec(c, es).Some?
    ensures Exec(c, es + [e]) == Step(c, Exec(c, es).value, e)
  {
    assert Front(es + [e]) == es;
  }

  /** How many `approve` calls have returned True. */
  function Approvals(es: seq<Event>): nat {
    if es == [] then 0
    else Approvals(Front(es)) + if Last(es).Approve? && Last(es).answer == Returned(true) then 1 else 0
  }

  /** The reviewers whose approval was recorded. */
  function Approvers(es: seq<Event>): set<string> {
    if es == [] then {}
    else
      Approvers(Front(es)) +
      if Last(es).Approve? && Last(es).answer == Returned(true) then {Last(es).reviewer} else {}
  }

  ghost predicate Inv(c: Config, s: State) {
    && s.approved <= c.required
    && (c.required != {} && IsApproved(c, s) ==> NoneAsleep(s.waiters))
  }

  lemma StepKeepsInv(c: Config, s: State, e: Event)
    requires Inv(c, s) && Step(c, s, e).Some?
    ensures Inv(c, Step(c, s, e).value)
    ensures
      var recorded := e.Approve? && e.answer == Returned(true);
      && Step(c, s, e).value.approved == s.approved + (if recorded then {e.reviewer} else {})
      && (recorded ==> e.reviewer !in s.approved)
  {
  }

  lemma {:induction false} StateInvariant(c: Config, es: seq<Event>)
    requires Exec(c, es).Some?
    ensures Inv(c, Exec(c, es).value)
  {
    if es != [] {
      StateInvariant(c, Front(es));
      StepKeepsInv(c, Exec(c, Front(es)).value, Last(es));
    }
  }

  /** Each recorded approval is of a required reviewer and is counted once; and there is no lost wakeup: a
      waiter that is asleep and has not been notified means that some reviewer is missing. */
  lemma {:induction false} Invariant(c: Config, es: seq<Event>)
    requires Exec(c, es).Some?
    ensures
      var s := Exec(c, es).value;
      && s.approved == Approvers(es) && Approvers(es) <= c.required && |Approvers(es)| == Approvals(es)
      && (c.required != {} && c.required <= Approvers(es) ==> forall w | w in s.waiters :: !s.waiters[w].Sleeping?)
  {
    StateInvariant(c, es);
    if es != [] {
      Invariant(c, Front(es));
      StepKeepsInv(c, Exec(c, Front(es)).value, Last(es));
    }
  }

  lemma SubsetSize<T>(a: set<T>, b: set<T>)
    requires a <= b
    ensures |a| <= |b|
    ensures b <= a <==> |a| == |b|
  {
    assert b == a + (b - a);
  }

  /** The batch is released at exactly the |required|-th approval that returns True. */
  lemma ReleasedAtLastApproval(c: Config, es: seq<Event>)
    requires Exec(c, es).Some?
    ensures Approvals(es) <= |c.required|
    ensures IsApproved(c, Exec(c, es).value) <==> Approvals(es) == |c.required|
    ensures IsApproved(c, Exec(c, es).value) <==> c.required <= Approvers(es)
  {
    Invariant(c, es);
    SubsetSize(Approvers(es), c.required);
  }

  lemma ApprovedStep(c: Config, s: State, e: Event)
    requires Inv(c, s) && c.required != {} && IsApproved(c, s) && Step(c, s, e).Some?
    ensures IsApproved(c, Step(c, s, e).value)
    ensures c.rechecks ==> NoNewRefusal(s.waiters, Step(c, s, e).value.waiters)
  {
  }

  /** Approval is stable, and once it is reached nobody is left asleep; a threaded waiter can from then on
      only be told True. */
  lemma {:induction false} ApprovedForGood(c: Config, before: seq<Event>, after: seq<Event>)
    requires Exec(c, before + after).Some? && c.required != {}
    requires Exec(c, before).Some? && IsApproved(c, Exec(c, before).value)
    ensures
      var s, s' := Exec(c, before).value, Exec(c, before + after).value;
      && c.required <= s'.approved && (forall w | w in s'.waiters :: !s'.waiters[w].Sleeping?)
      && (c.rechecks ==>
            forall w | w in s'.waiters && s'.waiters[w] == Answered(false) ::
              w in s.waiters && s.waiters[w] == Answered(false))
  {
    StateInvariant(c, before + after);
    if after == [] {
      assert before + after == before;
    } else {
      assert Front(before + after) == before + Front(after);
      ApprovedForGood(c, before, Front(after));
      StateInvariant(c, before + Front(after));
      ApprovedStep(c, Exec(c, before + Front(after)).value, Last(after));
    }
  }

  lemma {:induction false} ApprovedWhenTold(c: Config, es: seq<Event>, w: nat)
    requires Exec(c, es).Some?
    requires w in Exec(c, es).value.waiters && Exec(c, es).value.waiters[w] == Answered(true)
    ensures IsApproved(c, Exec(c, es).value)
  {
    var s := Exec(c, Front(es)).value;
    if w in s.waiters && s.waiters[w] == Answered(true) {
      ApprovedWhenTold(c, Front(es), w);
    }
  }

  /** The approval a waiter was told about is never taken back. */
  lemma {:induction false} TrueMeansApproved(c: Config, before: seq<Event>, w: nat, after: seq<Event>)
    requires Exec(c, before).Some? && Exec(c, before + after).Some?
    requires w in Exec(c, before).value.waiters && Exec(c, before).value.waiters[w] == Answered(true)
    ensures IsApproved(c, Exec(c, before + after).value)
  {
    if after == [] {
      assert before + after == before;
      ApprovedWhenTold(c, before, w);
    } else {
      assert Front(before + after) == before + Front(after);
      TrueMeansApproved(c, before, w, Front(after));
    }
  }

  /** An asynchronous waiter has run out of time if and only if the history says so. */
  lemma {:induction false} ExpiredIffTimedOut(c: Config, es: seq<Event>, w: nat)
    requires Exec(c, es).Some? && !c.rechecks
    ensures
      var waiters := Exec(c, es).value.waiters;
      Expire(w) in es <==> w in waiters && (waiters[w].Expired? || waiters[w] == Answered(false))
  {
    if es != [] {
      ExpiredIffTimedOut(c, Front(es), w);
      assert es == Front(es) + [Last(es)];
    }
  }

  /** The exact answer of an asynchronous waiter, over every run: False if its timeout expired before it had
      the lock again, whatever was approved by then, and True otherwise. */
  lemma TaskRefusedIffTimedOut(c: Config, es: seq<Event>, w: nat)
    requires Exec(c, es).Some? && !c.rechecks
    requires w in Exec(c, es).value.waiters && Exec(c, es).value.waiters[w].Answered?
    ensures Exec(c, es).value.waiters[w].answer <==> Expire(w) !in es
  {
    ExpiredIffTimedOut(c, es, w);
  }

  /** A thread can run out of time whenever it is asleep, and only then; a task also when it has been notified
      and does not have the lock yet. */
  lemma TimeoutsHappen(c: Config, es: seq<Event>, w: nat)
    requires Exec(c, es).Some?
    ensures
      var waiters := Exec(c, es).value.waiters;
      Exec(c, es + [Expire(w)]).Some? <==>
        w in waiters && (waiters[w].Sleeping? || (waiters[w].Notified? && !c.rechecks))
  {
    ExecExtends(c, es, Expire(w));
  }

  lemma {:induction false} ExpiredUntilResumed(c: Config, es: seq<Event>, i: nat, w: nat)
    requires Exec(c, es).Some? && i < |es| && es[i] == Expire(w)
    requires forall j | i < j < |es| :: !(es[j].Resume? && es[j].waiter == w)
    ensures w in Exec(c, es).value.waiters && Exec(c, es).value.waiters[w].Expired?
  {
    if i < |es| - 1 {
      ExpiredUntilResumed(c, Front(es), i, w);
      StaysExpired(c, Exec(c, Front(es)).value, Last(es), w);
    }
  }

  lemma StaysExpired(c: Config, s: State, e: Event, w: nat)
    requires Step(c, s, e).Some? && w in s.waiters && s.waiters[w].Expired? && !(e.Resume? && e.waiter == w)
    ensures w in Step(c, s, e).value.waiters && Step(c, s, e).value.waiters[w].Expired?
  {
  }

  /** A timeout ends the wait: the next step with the lock answers, with False for a task, and for a thread
      with True exactly when all approvals are in. */
  lemma TimeoutIsAnswered(c: Config, es: seq<Event>, i: nat, w: nat, timeUp: bool)
    requires Exec(c, es).Some? && i < |es| && es[i] == Expire(w)
    requires forall j | i < j < |es| :: !(es[j].Resume? && es[j].waiter == w)
    ensures Exec(c, es + [Resume(w, timeUp)]).Some?
    ensures Exec(c, es + [Resume(w, timeUp)]).value.waiters[w] ==
            Answered(c.rechecks && Approvals(es) == |c.required|)
  {
    ExpiredUntilResumed(c, es, i, w);
    ExecExtends(c, es, Resume(w, timeUp));
    ReleasedAtLastApproval(c, es);
  }

  /** And an approved batch lets every waiter go that has been notified: its next step answers True. */
  lemma NotifiedReturnsTrue(c: Config, es: seq<Event>, w: nat, timeUp: bool)
    requires Exec(c, es).Some? && c.required != {} && Approvals(es) == |c.required|
    requires w in Exec(c, es).value.waiters && !Exec(c, es).value.waiters[w].Answered?
    requires Expire(w) !in es
    ensures Exec(c, es + [Resume(w, timeUp)]).Some?
    ensures Exec(c, es + [Resume(w, timeUp)]).value.waiters[w] == Answered(true)
  {
    Invariant(c, es);
    ReleasedAtLastApproval(c, es);
    if Exec(c, es).value.waiters[w].Expired? {
      ExpiryIsRecorded(c, es, w);
    }
    ExecExtends(c, es, Resume(w, timeUp));
  }

  lemma HistoryExtends(es: seq<Event>, e: Event)
    ensures Approvers(es + [e]) ==
            Approvers(es) + if e.Approve? && e.answer == Returned(true) then {e.reviewer} else {}
    ensures Approvals(es + [e]) ==
            Approvals(es) + if e.Approve? && e.answer == Returned(true) then 1 else 0
  {
    assert Front(es + [e]) == es;
  }

  predicate Concerns(e: Event, w: nat) {
    !e.Approve? && e.waiter == w
  }

  lemma {:induction false} PrefixRuns(c: Config, es: seq<Event>, k: nat)
    requires Exec(c, es).Some? && k <= |es|
    ensures Exec(c, es[..k]).Some?
  {
    if k < |es| {
      PrefixRuns(c, Front(es), k);
      assert Front(es)[..k] == es[..k];
    } else {
      assert es[..k] == es;
    }
  }

  /** The exact answer of a threaded waiter, over every run: at its last step it had the lock, and it was told
      whether the batch was approved at that moment; it is told False only at the end of its time. */
  lemma {:induction false} ThreadAnswerIsCurrent(c: Config, es: seq<Event>, w: nat) returns (k: nat)
    requires Exec(c, es).Some? && c.rechecks
    requires w in Exec(c, es).value.waiters && Exec(c, es).value.waiters[w].Answered?
    ensures k < |es| && Concerns(es[k], w) && !es[k].Expire?
    ensures forall j | k < j < |es| :: !Concerns(es[j], w)
    ensures Exec(c, es[..k]).Some?
    ensures Exec(c, es).value.waiters[w].answer <==> IsApproved(c, Exec(c, es[..k]).value)
    ensures !Exec(c, es).value.waiters[w].answer ==> Expire(w) in es || es[k] == Resume(w, true)
  {
    var n := |es| - 1;
    assert es[..n] == Front(es) && es == Front(es) + [Last(es)];
    if Concerns(Last(es), w) {
      k := n;
      if Exec(c, es[..n]).value.waiters.Keys >= {w} && Exec(c, es[..n]).value.waiters[w].Expired? {
        ExpiryIsRecorded(c, es[..n], w);
      }
    } else {
      k := ThreadAnswerIsCurrent(c, Front(es), w);
      assert Front(es)[..k] == es[..k];
    }
  }

  lemma {:induction false} ExpiryIsRecorded(c: Config, es: seq<Event>, w: nat)
    requires Exec(c, es).Some? && w in Exec(c, es).value.waiters && Exec(c, es).value.waiters[w].Expired?
    ensures Expire(w) in es
  {
    if Last(es) != Expire(w) {
      ExpiryIsRecorded(c, Front(es), w);
    }
    assert es == Front(es) + [Last(es)];
  }

  /** So an asynchronous `wait_until_approved` can return False although the batch is approved when it
      returns: the time runs out, the last approval gets the lock first, and the predicate is not checked
      again.  The threaded one cannot, by `ThreadAnswerIsCurrent`. */
  lemma LateTimeoutAnswersFalse(w: nat, reviewer: string)
    requires reviewer != ""
    ensures
      var c := Config({reviewer}, false);
      var es := [Wait(w), Expire(w), Approve(reviewer, Returned(true)), Resume(w, true)];
      && Exec(c, es).Some? && IsApproved(c, Exec(c, es).value)
      && Exec(c, es).value.waiters == map[w := Answered(false)]
  {
    var e1, e2, e3, e4 := Wait(w), Expire(w), Approve(reviewer, Returned(true)), Resume(w, true);
    var c := Config({reviewer}, false);
    assert Front([e1]) == [];
    assert Exec(c, [e1]) == Some(State({}, map[w := Sleeping]));
    assert Front([e1, e2]) == [e1];
    assert map[w := Sleeping][w := Expired] == map[w := Expired];
    assert Exec(c, [e1, e2]) == Some(State({}, map[w := Expired]));
    assert Front([e1, e2, e3]) == [e1, e2];
    assert NotifyAll(map[w := Expired]) == map[w := Expired] && {} + {reviewer} == {reviewer};
    assert Exec(c, [e1, e2, e3]) == Some(State({reviewer}, map[w := Expired]));
    assert Front([e1, e2, e3, e4]) == [e1, e2, e3];
    assert map[w := Expired][w := Answered(false)] == map[w := Answered(false)];
  }

  /** The batch as the mutable object the source defines: one method per critical section. */
  class ApprovalBatch {
    const requiredReviewers: set<string>
    const rechecks: bool
    var approvedReviewers: set<string>
    var waiters: map<nat, Waiter>
    ghost var trace: seq<Event>

    ghost function Settings(): Config {
      Config(requiredReviewers, rechecks)
    }

    ghost function View(): State
      reads this
    {
      State(approvedReviewers, waiters)
    }

    ghost predicate Valid()
      reads this
    {
      requiredReviewers != {} && Exec(Settings(), trace) == Some(View())
    }

    constructor (required: set<string>, rechecks: bool)
      requires required != {} && "" !in required
      ensures Valid() && trace == [] && requiredReviewers == required && this.rechecks == rechecks
      ensures approvedReviewers == {} && waiters == map[]
    {
      requiredReviewers, this.rechecks := required, rechecks;
      approvedReviewers, waiters, trace := {}, map[], [];
    }

    method ApproveBy(reviewer: string) returns (r: Result<bool, ApprovalError>)
      requires Valid()
      modifies this
      ensures Valid() && trace == old(trace) + [Approve(reviewer, r)]
      ensures r == if reviewer == "" then Raised(EmptyName)
                   else if reviewer !in requiredReviewers then Raised(NotRequired)
                   else Returned(reviewer !in Approvers(old(trace)))
      ensures approvedReviewers == if r.Returned? then old(approvedReviewers) + {reviewer} else old(approvedReviewers)
      ensures waiters.Keys == old(waiters).Keys && forall w | w in waiters ::
        waiters[w] == if r == Returned(true) && old(waiters)[w].Sleeping? then Notified else old(waiters)[w]
      ensures Approvals(trace) == Approvals(old(trace)) + if r == Returned(true) then 1 else 0
      ensures Approvers(trace) == approvedReviewers
    {
      Invariant(Settings(), trace);
      HistoryExtends(trace, Approve(reviewer, Answer(Settings(), View(), reviewer)));
      if reviewer == "" {
        r := Raised(EmptyName);
      } else if reviewer !in requiredReviewers {
        r := Raised(NotRequired);
      } else if reviewer in approvedReviewers {
        r := Returned(false);
      } else {
        approvedReviewers := approvedReviewers + {reviewer};
        waiters := NotifyAll(waiters);
        r := Returned(true);
      }
      ExecExtends(Settings(), trace, Approve(reviewer, r));
      trace := trace + [Approve(reviewer, r)];
    }

    method BeginWaiting(w: nat)
      requires Valid() && w !in waiters
      modifies this
      ensures Valid() && trace == old(trace) + [Wait(w)]
      ensures waiters ==
        old(waiters)[w := if Approvals(old(trace)) == |requiredReviewers| then Answered(true) else Sleeping]
      ensures approvedReviewers == old(approvedReviewers)
    {
      ReleasedAtLastApproval(Settings(), trace);
      waiters := waiters[w := if requiredReviewers <= approvedReviewers then Answered(true) else Sleeping];
      ExecExtends(Settings(), trace, Wait(w));
      trace := trace + [Wait(w)];
    }

    /** The timeout of a waiter; it still has to get the lock before it can return. */
    method GiveUp(w: nat)
      requires Valid() && w in waiters && (waiters[w].Sleeping? || (waiters[w].Notified? && !rechecks))
      modifies this
      ensures Valid() && trace == old(trace) + [Expire(w)] && waiters == old(waiters)[w := Expired]
      ensures approvedReviewers == old(approvedReviewers)
    {
      waiters := waiters[w := Expired];
      ExecExtends(Settings(), trace, Expire(w));
      trace := trace + [Expire(w)];
    }

    method ResumeWaiting(w: nat, timeUp: bool)
      requires Valid() && CanWake(waiters, w)
      modifies this
      ensures Valid() && trace == old(trace) + [Resume(w, timeUp)]
      ensures waiters.Keys == old(waiters).Keys && w in waiters
      ensures waiters[w] == Answered(true) <==>
        Approvals(old(trace)) == |requiredReviewers| && (rechecks || Expire(w) !in old(trace))
      ensures waiters[w] == Answered(false) <==>
        if rechecks then
          Approvals(old(trace)) < |requiredReviewers| && (timeUp || old(waiters)[w].Expired?)
        else Expire(w) in old(trace)
      ensures waiters == old(waiters)[w := waiters[w]] && (!waiters[w].Answered? ==> waiters[w].Sleeping?)
      ensures approvedReviewers == old(approvedReviewers)
    {
      ReleasedAtLastApproval(Settings(), trace);
      if !rechecks {
        ExpiredIffTimedOut(Settings(), trace, w);
      }
      var approved := requiredReviewers <= approvedReviewers;
      if waiters[w].Expired? {
        waiters := waiters[w := Answered(rechecks && approved)];
      } else if approved {
        waiters := waiters[w := Answered(true)];
      } else if rechecks && timeUp {
        waiters := waiters[w := Answered(false)];
      } else {
        waiters := waiters[w := Sleeping];
      }
      ExecExtends(Settings(), trace, Resume(w, timeUp));
      trace := trace + [Resume(w, timeUp)];
    }

    method RemainingReviewers() returns (r: set<string>)
      requires Valid()
      ensures r + Approvers(trace) == requiredReviewers && r !! Approvers(trace)
    {
      Invariant(Settings(), trace);
      r := requiredReviewers - approvedReviewers;
    }
  }
}
