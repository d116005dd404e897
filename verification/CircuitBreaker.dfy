/** The circuit breaker: calls are admitted and their outcomes recorded under a lock, while the partner
    operations themselves run outside it, so any number of them may be in flight at once.

    A call carries nothing but the state it was admitted in.  Operations end normally or with an
    `Exception`; the clock never goes back. */
module CircuitBreaker {
  import opened Wrappers
  import opened Sequences

  datatype CircuitState = Closed | Open | HalfOpen

  datatype Config = Config(failureThreshold: nat, recoveryTimeout: real, epoch: real)

  datatype Breaker = Breaker(state: CircuitState, consecutiveFailures: int, openedAt: Option<real>)

  /** What `_before_call` answers: an admission, a `CircuitOpenError`, or the "invalid state" error. */
  datatype Admission = Admitted(state: CircuitState) | CircuitOpen | InvalidState

  function BeforeCall(c: Config, b: Breaker, now: real): (Breaker, Admission) {
    match b.state
    case Closed => (b, Admitted(Closed))
    case HalfOpen => (b, CircuitOpen)
    case Open =>
      if b.openedAt.None? then (b, InvalidState)
      else if now - b.openedAt.value < c.recoveryTimeout then (b, CircuitOpen)
      else (b.(state := HalfOpen), Admitted(HalfOpen))
  }

  function RecordSuccess(b: Breaker, admitted: CircuitState): Breaker {
    if admitted.Closed? && !b.state.Closed? then b else Breaker(Closed, 0, None)
  }

  function Trip(b: Breaker, now: real): Breaker {
    b.(state := Open, openedAt := Some(now))
  }

  function RecordFailure(c: Config, b: Breaker, admitted: CircuitState, now: real): Breaker {
    if admitted.HalfOpen? then Trip(b, now)
    else if !b.state.Closed? then b
    else
      var b' := b.(consecutiveFailures := b.consecutiveFailures + 1);
      if b'.consecutiveFailures >= c.failureThreshold then Trip(b', now) else b'
  }

  /** The breaker, the calls in flight with the state each was admitted in, and the latest clock reading. */
  datatype State = State(breaker: Breaker, inFlight: map<nat, CircuitState>, clock: real)

  datatype Event =
    | Call(id: nat, now: real, admission: Admission)
    | Succeed(id: nat, now: real)
    | Fail(id: nat, now: real)

  ghost predicate Configured(c: Config) {
    c.failureThreshold > 0 && c.recoveryTimeout >= 0.0
  }

  function Initial(c: Config): State {
    State(Breaker(Closed, 0, None), map[], c.epoch)
  }

  function Step(c: Config, s: State, e: Event): Option<State> {
    if e.now < s.clock then None
    else
      match e
      case Call(id, now, admission) =>
        var (b, answer) := BeforeCall(c, s.breaker, now);
        if id in s.inFlight || admission != answer then None
        else
          Some(State(b, if answer.Admitted? then s.inFlight[id := answer.state] else s.inFlight, now))
      case Succeed(id, now) =>
        if id !in s.inFlight then None
        else Some(State(RecordSuccess(s.breaker, s.inFlight[id]), s.inFlight - {id}, now))
      case Fail(id, now) =>
        if id !in s.inFlight then None
        else Some(State(RecordFailure(c, s.breaker, s.inFlight[id], now), s.inFlight - {id}, now))
  }

  function Exec(c: Config, es: seq<Event>): Option<State> {
    if es == [] then Some(Initial(c))
    else
      match Exec(c, Front(es))
      case None => None
      case Some(s) => Step(c, s, Last(es))
  }

  lemma ExecExtends(c: Config, es: seq<Event>, e: Event)
    requires Exec(c, es).Some?
    ensures Exec(c, es + [e]) == Step(c, Exec(c, es).value, e)
  {
    assert Front(es + [e]) == es;
  }

  // ---- Which states are reachable

  /** The calls in flight that were admitted as trials. */
  ghost function Trials(s: State): set<nat> {
    set id | id in s.inFlight && s.inFlight[id].HalfOpen?
  }

  ghost predicate Inv(c: Config, s: State) {
    && (forall id | id in s.inFlight :: !s.inFlight[id].Open?)
    && match s.breaker.state
       case Closed =>
         && 0 <= s.breaker.consecutiveFailures < c.failureThreshold && s.breaker.openedAt.None?
         && Trials(s) == {}
       case Open =>
         && s.breaker.consecutiveFailures == c.failureThreshold
         && s.breaker.openedAt.Some? && s.breaker.openedAt.value <= s.clock
         && Trials(s) == {}
       case HalfOpen =>
         && s.breaker.consecutiveFailures == c.failureThreshold
         && s.breaker.openedAt.Some? && s.breaker.openedAt.value + c.recoveryTimeout <= s.clock
         && exists id :: Trials(s) == {id}
  }

  lemma StepKeepsInv(c: Config, s: State, e: Event)
    requires Configured(c) && Inv(c, s) && Step(c, s, e).Some?
    ensures Inv(c, Step(c, s, e).value)
  {
    var s' := Step(c, s, e).value;
    assert e.id in Trials(s) <==> e.id in s.inFlight && s.inFlight[e.id].HalfOpen?;
    match e
    case Call(id, now, admission) =>
      assert Trials(s') == Trials(s) + if admission == Admitted(HalfOpen) then {id} else {};
    case _ =>
      assert Trials(s') == Trials(s) - {e.id};
  }

  /** In every reachable state, stale completions included: the counter and `opened_at` fit the circuit
      state, and exactly one trial is in flight when the circuit is half-open and none otherwise. */
  lemma {:induction false} Invariant(c: Config, es: seq<Event>)
    requires Configured(c) && Exec(c, es).Some?
    ensures Inv(c, Exec(c, es).value)
    ensures |Trials(Exec(c, es).value)| == if Exec(c, es).value.breaker.state.HalfOpen? then 1 else 0
  {
    if es != [] {
      Invariant(c, Front(es));
      StepKeepsInv(c, Exec(c, Front(es)).value, Last(es));
    }
  }

  /** The "invalid circuit breaker state" branch is dead code. */
  lemma NeverInvalid(c: Config, es: seq<Event>, i: nat)
    requires Configured(c) && Exec(c, es).Some? && i < |es| && es[i].Call?
    ensures !es[i].admission.InvalidState?
    decreases |es|
  {
    if i == |es| - 1 {
      Invariant(c, Front(es));
    } else {
      NeverInvalid(c, Front(es), i);
    }
  }

  /** Only the outcome of the one trial in flight ends the half-open state: its success closes the circuit
      and clears the counter, its failure opens the circuit again from that moment. */
  lemma OnlyTheTrialDecides(c: Config, es: seq<Event>, e: Event)
    requires Configured(c) && Exec(c, es + [e]).Some?
    requires Exec(c, es).Some? && Exec(c, es).value.breaker.state.HalfOpen?
    ensures
      var s, b' := Exec(c, es).value, Exec(c, es + [e]).value.breaker;
      && (!b'.state.HalfOpen? <==> !e.Call? && Trials(s) == {e.id})
      && (b'.state.HalfOpen? ==> b' == s.breaker)
      && (e.Succeed? && Trials(s) == {e.id} ==> b' == Breaker(Closed, 0, None))
      && (e.Fail? && Trials(s) == {e.id} ==> b'.state == Open && b'.openedAt == Some(e.now))
  {
    assert Front(es + [e]) == es;
    Invariant(c, es);
    var s := Exec(c, es).value;
    var id :| Trials(s) == {id};
    assert e.id in Trials(s) <==> e.id == id;
    assert e.id in Trials(s) <==> e.id in s.inFlight && s.inFlight[e.id].HalfOpen?;
    assert Trials(s) == {e.id} <==> e.id == id;
  }

  // ---- Counting failures

  /** The failures since the last success, in the order the calls ended: a function of the history only. */
  function Trailing(es: seq<Event>): nat {
    if es == [] then 0
    else
      match Last(es)
      case Call(_, _, _) => Trailing(Front(es))
      case Succeed(_, _) => 0
      case Fail(_, _) => Trailing(Front(es)) + 1
  }

  /** The counter is the number of consecutive failures for as long as the circuit is closed; from the moment
      it opens until it closes again it stands still at the threshold. */
  lemma {:induction false} CounterIsTrailing(c: Config, es: seq<Event>)
    requires Configured(c) && Exec(c, es).Some?
    ensures
      var b := Exec(c, es).value.breaker;
      b.consecutiveFailures == if b.state.Closed? then Trailing(es) else c.failureThreshold
  {
    Invariant(c, es);
    if es != [] {
      CounterIsTrailing(c, Front(es));
      Invariant(c, Front(es));
      var s, e := Exec(c, Front(es)).value, Last(es);
      assert e.id in s.inFlight && s.inFlight[e.id].HalfOpen? ==> e.id in Trials(s);
    }
  }

  lemma TrailingExtends(es: seq<Event>, e: Event)
    ensures Trailing(es + [e]) == if e.Call? then Trailing(es) else if e.Succeed? then 0 else Trailing(es) + 1
  {
    assert Front(es + [e]) == es;
  }

  /** A closed circuit opens at exactly the call that makes `failureThreshold` failures in a row, and at no
      other event. */
  lemma OpensAtThreshold(c: Config, es: seq<Event>, e: Event)
    requires Configured(c) && Exec(c, es + [e]).Some?
    requires Exec(c, es).Some? && Exec(c, es).value.breaker.state.Closed?
    ensures Exec(c, es + [e]).value.breaker.state in {Closed, Open}
    ensures Exec(c, es + [e]).value.breaker.state.Open? <==> e.Fail? && Trailing(es + [e]) == c.failureThreshold
    ensures Exec(c, es + [e]).value.breaker.state.Open? ==> Exec(c, es + [e]).value.breaker.openedAt == Some(e.now)
  {
    assert Front(es + [e]) == es;
    Invariant(c, es);
    CounterIsTrailing(c, es);
    var s := Exec(c, es).value;
    assert e.Fail? ==> e.id !in Trials(s);
  }

  /** So the counter is not always the number of consecutive failures: here call 1 opens the circuit, and the
      later success of call 2 leaves the counter at 1. */
  lemma CounterStandsStill(c: Config)
    requires c == Config(1, 0.0, 0.0)
    ensures
      var es := [Call(1, 0.0, Admitted(Closed)), Call(2, 0.0, Admitted(Closed)), Fail(1, 0.0), Succeed(2, 0.0)];
      && Exec(c, es).Some? && Exec(c, es).value.breaker.state.Open?
      && Exec(c, es).value.breaker.consecutiveFailures == 1 && Trailing(es) == 0
  {
    var e1, e2 := Call(1, 0.0, Admitted(Closed)), Call(2, 0.0, Admitted(Closed));
    var e3, e4 := Fail(1, 0.0), Succeed(2, 0.0);
    assert Front([e1]) == [];
    assert Front([e1, e2]) == [e1];
    assert Front([e1, e2, e3]) == [e1, e2];
    assert Front([e1, e2, e3, e4]) == [e1, e2, e3];
  }

  /** A step at which a counter that was right stays right: no call ends, or a call ends while the circuit
      is closed, or the trial succeeds. */
  ghost predicate KeepsCount(s: State, e: Event) {
    e.Call? || s.breaker.state.Closed? || (e.Succeed? && Trials(s) == {e.id})
  }

  ghost predicate CountsRight(c: Config, es: seq<Event>)
    requires Exec(c, es).Some?
  {
    Exec(c, es).value.breaker.consecutiveFailures == Trailing(es)
  }

  /** The exact rule, one event at a time. */
  lemma CounterStaysRight(c: Config, es: seq<Event>, e: Event)
    requires Configured(c) && Exec(c, es).Some? && Exec(c, es + [e]).Some?
    requires CountsRight(c, es)
    ensures CountsRight(c, es + [e]) <==> KeepsCount(Exec(c, es).value, e)
    ensures
      var s := Exec(c, es).value;
      Exec(c, es + [e]).value.breaker.consecutiveFailures == Trailing(es + [e]) <==>
        e.Call? || s.breaker.state.Closed? || (e.Succeed? && Trials(s) == {e.id})
  {
    assert Front(es + [e]) == es;
    Invariant(c, es);
    var s := Exec(c, es).value;
    assert e.id in s.inFlight ==> (e.id in Trials(s) <==> s.inFlight[e.id].HalfOpen?);
    if s.breaker.state.HalfOpen? {
      var id :| Trials(s) == {id};
      assert Trials(s) == {e.id} <==> e.id == id;
    }
  }

  lemma {:induction false} PrefixRuns(c: Config, es: seq<Event>, k: nat)
    requires Exec(c, es).Some? && k <= |es|
    ensures Exec(c, es[..k]).Some?
  {
    if k < |es| {
      PrefixRuns(c, Front(es), k);
      assert Front(es)[..k] == es[..k];
    } else {
      assert es[..k] == es;
    }
  }

  ghost predicate RightAt(c: Config, es: seq<Event>, k: nat)
    requires k <= |es|
  {
    Exec(c, es[..k]).Some? && CountsRight(c, es[..k])
  }

  ghost predicate KeptAt(c: Config, es: seq<Event>, k: nat)
    requires k < |es|
  {
    Exec(c, es[..k]).Some? && KeepsCount(Exec(c, es[..k]).value, es[k])
  }

  /** The counter was right at each of the first n + 1 moments of the run. */
  ghost predicate RightUpTo(c: Config, es: seq<Event>, n: nat)
    requires n <= |es|
  {
    forall k | 0 <= k <= n :: RightAt(c, es, k)
  }

  /** None of the first n events made a right counter wrong. */
  ghost predicate KeptUpTo(c: Config, es: seq<Event>, n: nat)
    requires n <= |es|
  {
    forall k | 0 <= k < n :: KeptAt(c, es, k)
  }

  lemma PrefixStaysRight(c: Config, es: seq<Event>, n: nat)
    requires Configured(c) && Exec(c, es).Some? && n < |es|
    ensures RightAt(c, es, n) ==> (RightAt(c, es, n + 1) <==> KeptAt(c, es, n))
  {
    PrefixRuns(c, es, n);
    PrefixRuns(c, es, n + 1);
    assert es[..n + 1] == es[..n] + [es[n]];
    if CountsRight(c, es[..n]) {
      CounterStaysRight(c, es[..n], es[n]);
    }
  }

  lemma {:induction false} RightIffKept(c: Config, es: seq<Event>, n: nat)
    requires Configured(c) && Exec(c, es).Some? && n <= |es|
    ensures RightUpTo(c, es, n) <==> KeptUpTo(c, es, n)
  {
    if n == 0 {
      assert es[..0] == [];
    } else {
      RightIffKept(c, es, n - 1);
      PrefixStaysRight(c, es, n - 1);
    }
  }

  /** And over a whole run: the counter was the number of consecutive failures at every moment if and only if
      no call ended while the circuit was not closed, other than by the success of a trial. */
  lemma CounterAlwaysRight(c: Config, es: seq<Event>)
    requires Configured(c) && Exec(c, es).Some?
    ensures RightUpTo(c, es, |es|) <==> KeptUpTo(c, es, |es|)
  {
    RightIffKept(c, es, |es|);
  }

  // ---- Timing

  predicate IsAdmission(e: Event) {
    e.Call? && e.admission.Admitted?
  }

  /** The times at which trial calls were admitted. */
  function TrialTimes(es: seq<Event>): seq<real> {
    if es == [] then []
    else
      TrialTimes(Front(es)) +
      if Last(es).Call? && Last(es).admission == Admitted(HalfOpen) then [Last(es).now] else []
  }

  /** No trial is more recent than the clock or than the moment the circuit opened. */
  ghost predicate TrialsArePast(times: seq<real>, s: State) {
    forall i | 0 <= i < |times| ::
      && times[i] <= s.clock
      && (s.breaker.state.Open? && s.breaker.openedAt.Some? ==> times[i] <= s.breaker.openedAt.value)
  }

  ghost predicate Spaced(times: seq<real>, gap: real) {
    forall i | 0 < i < |times| :: times[i] >= times[i - 1] + gap
  }

  lemma {:induction false} TrialsSpacedOut(c: Config, es: seq<Event>)
    requires Configured(c) && Exec(c, es).Some?
    ensures TrialsArePast(TrialTimes(es), Exec(c, es).value)
    ensures Spaced(TrialTimes(es), c.recoveryTimeout)
  {
    if es != [] {
      TrialsSpacedOut(c, Front(es));
      Invariant(c, Front(es));
      var s, e := Exec(c, Front(es)).value, Last(es);
      assert s.breaker.state.HalfOpen? || Trials(s) == {};
      assert !e.Call? ==> (e.id in Trials(s) <==> s.inFlight[e.id].HalfOpen?);
    }
  }

  lemma {:induction false} SpanOfTrials(times: seq<real>, gap: real, i: nat, j: nat)
    requires i <= j < |times|
    requires Spaced(times, gap)
    ensures times[j] - times[i] >= (j - i) as real * gap
  {
    if i < j {
      SpanOfTrials(times, gap, i, j - 1);
      assert (j - i) as real * gap == (j - 1 - i) as real * gap + gap;
    }
  }

  /** Over any run with a non-decreasing clock, n trial calls span at least n-1 recovery timeouts. */
  lemma TrialsTakeTime(c: Config, es: seq<Event>, i: nat, j: nat)
    requires Configured(c) && Exec(c, es).Some? && i <= j < |TrialTimes(es)|
    ensures TrialTimes(es)[j] - TrialTimes(es)[i] >= (j - i) as real * c.recoveryTimeout
  {
    TrialsSpacedOut(c, es);
    SpanOfTrials(TrialTimes(es), c.recoveryTimeout, i, j);
  }

  /** An open circuit stays as it is and admits nobody until it has recovered. */
  lemma OpenStep(c: Config, s: State, e: Event)
    requires Configured(c) && Inv(c, s) && Step(c, s, e).Some?
    ensures s.clock <= e.now == Step(c, s, e).value.clock
    ensures s.breaker.state.Open? && e.now < s.breaker.openedAt.value + c.recoveryTimeout ==>
      Step(c, s, e).value.breaker == s.breaker && !IsAdmission(e)
  {
    assert forall id | id in s.inFlight && s.inFlight[id].HalfOpen? :: id in Trials(s);
  }

  predicate IsTrial(e: Event) {
    e.Call? && e.admission == Admitted(HalfOpen)
  }

  /** Each trial so far was admitted no later than now, and no later than the circuit opened, if it is open. */
  lemma {:induction false} TrialsBefore(c: Config, es: seq<Event>, i: nat)
    requires Configured(c) && Exec(c, es).Some? && i < |es| && IsTrial(es[i])
    ensures es[i].now <= Exec(c, es).value.clock
    ensures Exec(c, es).value.breaker.state.Open? && Exec(c, es).value.breaker.openedAt.Some? ==>
      es[i].now <= Exec(c, es).value.breaker.openedAt.value
  {
    Invariant(c, Front(es));
    if i < |es| - 1 {
      TrialsBefore(c, Front(es), i);
      TrialStep(c, Exec(c, Front(es)).value, Last(es), es[i].now);
    }
  }

  lemma TrialStep(c: Config, s: State, e: Event, t: real)
    requires Configured(c) && Inv(c, s) && Step(c, s, e).Some? && t <= s.clock
    requires s.breaker.state.Open? ==> t <= s.breaker.openedAt.value
    ensures
      var s' := Step(c, s, e).value;
      t <= s'.clock && (s'.breaker.state.Open? && s'.breaker.openedAt.Some? ==> t <= s'.breaker.openedAt.value)
  {
  }

  /** The same on the events themselves: any two trials are at least one recovery timeout apart. */
  lemma TrialsApart(c: Config, es: seq<Event>, i: nat, j: nat)
    requires Configured(c) && Exec(c, es).Some? && i < j < |es|
    requires es[i].Call? && es[i].admission == Admitted(HalfOpen)
    requires es[j].Call? && es[j].admission == Admitted(HalfOpen)
    ensures es[j].now >= es[i].now + c.recoveryTimeout
  {
    PrefixRuns(c, es, j);
    PrefixRuns(c, es, j + 1);
    assert Front(es[..j + 1]) == es[..j] && Last(es[..j + 1]) == es[j];
    TrialsBefore(c, es[..j], i);
    Invariant(c, es[..j]);
  }

  lemma {:induction false} OpenOrRecovered(c: Config, before: seq<Event>, after: seq<Event>)
    requires Configured(c) && Exec(c, before + after).Some?
    requires Exec(c, before).Some? && Exec(c, before).value.breaker.state.Open?
    ensures
      var b, s := Exec(c, before).value.breaker, Exec(c, before + after).value;
      && b.openedAt.Some?
      && (s.breaker == b || s.clock >= b.openedAt.value + c.recoveryTimeout)
      && (forall k | 0 <= k < |after| && IsAdmission(after[k]) ::
            after[k].now >= b.openedAt.value + c.recoveryTimeout)
  {
    Invariant(c, before);
    if after == [] {
      assert before + after == before;
    } else {
      assert Front(before + after) == before + Front(after);
      OpenOrRecovered(c, before, Front(after));
      Invariant(c, before + Front(after));
      OpenStep(c, Exec(c, before + Front(after)).value, Last(after));
    }
  }

  /** From the moment the circuit opens no partner call at all is admitted until the recovery timeout has
      passed, whatever calls are in flight and however they end. */
  lemma NoCallWhileOpen(c: Config, before: seq<Event>, after: seq<Event>)
    requires Configured(c) && Exec(c, before + after).Some?
    requires Exec(c, before).Some? && Exec(c, before).value.breaker.state.Open?
    ensures Exec(c, before).value.breaker.openedAt.Some?
    ensures forall k | 0 <= k < |after| && after[k].Call? && after[k].admission.Admitted? ::
      after[k].now >= Exec(c, before).value.breaker.openedAt.value + c.recoveryTimeout
  {
    OpenOrRecovered(c, before, after);
    assert forall k | 0 <= k < |after| && after[k].Call? && after[k].admission.Admitted? :: IsAdmission(after[k]);
  }

  /** And then the next call is admitted as the trial: in the open state a call is let through exactly when
      the recovery timeout has passed. */
  lemma TrialAdmittedOnceRecovered(c: Config, es: seq<Event>, id: nat, now: real)
    requires Configured(c) && Exec(c, es).Some? && Exec(c, es).value.breaker.state.Open?
    requires now >= Exec(c, es).value.clock && id !in Exec(c, es).value.inFlight
    ensures
      var openedAt := Exec(c, es).value.breaker.openedAt;
      && openedAt.Some?
      && (Exec(c, es + [Call(id, now, Admitted(HalfOpen))]).Some? <==>
            now >= openedAt.value + c.recoveryTimeout)
      && (Exec(c, es + [Call(id, now, CircuitOpen)]).Some? <==> now < openedAt.value + c.recoveryTimeout)
  {
    Invariant(c, es);
    assert Front(es + [Call(id, now, Admitted(HalfOpen))]) == es;
    assert Front(es + [Call(id, now, CircuitOpen)]) == es;
  }

  /** Why trials must end: while the trial's outcome is outstanding the circuit stays half-open and every
      call is refused, for ever if need be. */
  lemma {:induction false} PendingTrialBlocks(c: Config, before: seq<Event>, id: nat, after: seq<Event>)
    requires Configured(c) && Exec(c, before + after).Some?
    requires Exec(c, before).Some? && Exec(c, before).value.breaker.state.HalfOpen?
    requires Trials(Exec(c, before).value) == {id}
    requires forall e | e in after :: e.id == id ==> e.Call?
    ensures Exec(c, before + after).value.breaker == Exec(c, before).value.breaker
    ensures Trials(Exec(c, before + after).value) == {id}
    ensures forall e | e in after :: e.Call? ==> e.admission.CircuitOpen?
  {
    if after == [] {
      assert before + after == before;
    } else {
      assert Front(before + after) == before + Front(after);
      assert after == Front(after) + [Last(after)];
      PendingTrialBlocks(c, before, id, Front(after));
      var s, s', e := Exec(c, before + Front(after)).value, Exec(c, before + after).value, Last(after);
      assert e.id in Trials(s) <==> e.id in s.inFlight && s.inFlight[e.id].HalfOpen?;
      Invariant(c, before + Front(after));
      assert Trials(s') == Trials(s);
    }
  }

  // ---- Stale completions

  /** A call admitted in one closed period is still counted in a later one: with a threshold of one, call 1
      is admitted, call 2 opens the circuit, call 3 is the trial that closes it, and then the failure of the
      old call 1 opens it again although no call of the new closed period has failed. */
  lemma StaleFailureCounts(c: Config)
    requires c == Config(1, 0.0, 0.0)
    ensures
      var es := [Call(1, 0.0, Admitted(Closed)), Call(2, 0.0, Admitted(Closed)), Fail(2, 0.0),
                 Call(3, 0.0, Admitted(HalfOpen)), Succeed(3, 0.0)];
      && Exec(c, es).Some? && Exec(c, es).value.breaker == Breaker(Closed, 0, None)
      && Exec(c, es + [Fail(1, 0.0)]).Some? && Exec(c, es + [Fail(1, 0.0)]).value.breaker.state.Open?
  {
    var e1, e2, e3 := Call(1, 0.0, Admitted(Closed)), Call(2, 0.0, Admitted(Closed)), Fail(2, 0.0);
    var e4, e5, e6 := Call(3, 0.0, Admitted(HalfOpen)), Succeed(3, 0.0), Fail(1, 0.0);
    assert Front([e1]) == [];
    assert Front([e1, e2]) == [e1];
    assert Front([e1, e2, e3]) == [e1, e2];
    assert Front([e1, e2, e3, e4]) == [e1, e2, e3];
    assert Front([e1, e2, e3, e4, e5]) == [e1, e2, e3, e4];
    assert Front([e1, e2, e3, e4, e5] + [e6]) == [e1, e2, e3, e4, e5];
  }

  /** Until it ends a call is in flight with the state it was admitted in. */
  lemma {:induction false} InFlightUntilItEnds(c: Config, es: seq<Event>, i: nat)
    requires Exec(c, es).Some? && i < |es| && IsAdmission(es[i])
    requires forall k | i < k < |es| :: es[k].id == es[i].id ==> es[k].Call?
    ensures es[i].id in Exec(c, es).value.inFlight
    ensures Exec(c, es).value.inFlight[es[i].id] == es[i].admission.state
  {
    if i < |es| - 1 {
      InFlightUntilItEnds(c, Front(es), i);
    }
  }

  /** The rule for such calls: however often the circuit has opened and closed since call i was admitted, its
      outcome e is ignored if the circuit is not closed when it ends, and otherwise it is counted as the
      outcome of any other call. */
  lemma StaleIffNotClosed(c: Config, es: seq<Event>, i: nat, e: Event)
    requires Configured(c) && Exec(c, es).Some? && Exec(c, es + [e]).Some? && !e.Call?
    requires i < |es| && IsAdmission(es[i]) && es[i].admission.state.Closed? && es[i].id == e.id
    requires forall k | i < k < |es| :: es[k].id == e.id ==> es[k].Call?
    ensures
      var b, b' := Exec(c, es).value.breaker, Exec(c, es + [e]).value.breaker;
      && (!b.state.Closed? ==> b' == b)
      && (b.state.Closed? ==> b'.consecutiveFailures == Trailing(es + [e]))
      && (b.state.Closed? && e.Fail? ==> b'.consecutiveFailures == b.consecutiveFailures + 1)
      && (b.state.Closed? && e.Succeed? ==> b' == Breaker(Closed, 0, None))
  {
    assert Front(es + [e]) == es;
    InFlightUntilItEnds(c, es, i);
    CounterIsTrailing(c, es);
  }
}
