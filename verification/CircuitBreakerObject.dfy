/** The circuit breaker as the mutable object the source defines. */
module CircuitBreakerObject {
  import opened Wrappers
  import CB = CircuitBreaker

  type CircuitState = CB.CircuitState

  datatype CallError<+E> = Refused | InvalidState | PartnerFailed(error: E)

  /** `inFlight`, `clock` and `trace` describe the environment: who is inside a partner operation, and what
      has happened.  The methods read the clock through their argument. */
  class CircuitBreaker {
    const failureThreshold: nat
    const recoveryTimeout: real
    ghost const config: CB.Config
    var state: CircuitState
    var consecutiveFailures: int
    var openedAt: Option<real>
    ghost var inFlight: map<nat, CircuitState>
    ghost var clock: real
    ghost var trace: seq<CB.Event>

    ghost function View(): CB.State
      reads this
    {
      CB.State(CB.Breaker(state, consecutiveFailures, openedAt), inFlight, clock)
    }

    ghost predicate Valid()
      reads this
    {
      && CB.Configured(config)
      && config.failureThreshold == failureThreshold && config.recoveryTimeout == recoveryTimeout
      && CB.Exec(config, trace) == Some(View())
    }

    constructor (failureThreshold: nat, recoveryTimeout: real, ghost epoch: real)
      requires failureThreshold > 0 && recoveryTimeout >= 0.0
      ensures Valid() && trace == [] && clock == epoch
      ensures config == CB.Config(failureThreshold, recoveryTimeout, epoch)
      ensures state == CB.Closed && consecutiveFailures == 0 && openedAt == None && inFlight == map[]
    {
      this.failureThreshold, this.recoveryTimeout := failureThreshold, recoveryTimeout;
      config := CB.Config(failureThreshold, recoveryTimeout, epoch);
      state, consecutiveFailures, openedAt := CB.Closed, 0, None;
      inFlight, clock, trace := map[], epoch, [];
    }

    /** Admit call `id` or refuse it; the invalid-state error never occurs. */
    method BeforeCall(ghost id: nat, now: real) returns (r: CB.Admission)
      requires Valid() && id !in inFlight && now >= clock
      modifies this
      ensures Valid() && trace == old(trace) + [CB.Call(id, now, r)]
      ensures !r.InvalidState?
      ensures inFlight == if r.Admitted? then old(inFlight)[id := r.state] else old(inFlight)
      ensures r ==
        if old(state).Closed? then CB.Admitted(CB.Closed)
        else if old(state).HalfOpen? || (openedAt.Some? && now - openedAt.value < recoveryTimeout) then CB.CircuitOpen
        else CB.Admitted(CB.HalfOpen)
      ensures state == if r == CB.Admitted(CB.HalfOpen) then CB.HalfOpen else old(state)
      ensures consecutiveFailures == old(consecutiveFailures) && openedAt == old(openedAt) && clock == now
      ensures CB.Trailing(trace) == CB.Trailing(old(trace))
    {
      CallRuns(id, now);
      ghost var answer := CB.BeforeCall(config, CB.Breaker(state, consecutiveFailures, openedAt), now).1;
      clock := now;
      if state.Closed? {
        r := CB.Admitted(CB.Closed);
      } else if state.HalfOpen? {
        r := CB.CircuitOpen;
      } else if !state.Open? || openedAt.None? {
        r := CB.InvalidState;
      } else if now - openedAt.value < recoveryTimeout {
        r := CB.CircuitOpen;
      } else {
        state := CB.HalfOpen;
        r := CB.Admitted(CB.HalfOpen);
      }
      if r.Admitted? {
        inFlight := inFlight[id := r.state];
      }
      assert r == answer;
      CB.TrailingExtends(trace, CB.Call(id, now, r));
      trace := trace + [CB.Call(id, now, r)];
    }

    lemma CallRuns(id: nat, now: real)
      requires Valid() && id !in inFlight && now >= clock
      ensures
        var (b, answer) := CB.BeforeCall(config, CB.Breaker(state, consecutiveFailures, openedAt), now);
        && !answer.InvalidState?
        && CB.Exec(config, trace + [CB.Call(id, now, answer)]) ==
             Some(CB.State(b, if answer.Admitted? then inFlight[id := answer.state] else inFlight, now))
    {
      var answer := CB.BeforeCall(config, CB.Breaker(state, consecutiveFailures, openedAt), now).1;
      CB.Invariant(config, trace);
      CB.ExecExtends(config, trace, CB.Call(id, now, answer));
    }

    method RecordSuccess(admitted: CircuitState, ghost id: nat, ghost now: real)
      requires Valid() && id in inFlight && inFlight[id] == admitted && now >= clock
      modifies this
      ensures Valid() && trace == old(trace) + [CB.Succeed(id, now)]
      ensures inFlight == old(inFlight) - {id} && clock == now && CB.Trailing(trace) == 0
      ensures admitted.Closed? && !old(state).Closed? ==>
        state == old(state) && consecutiveFailures == old(consecutiveFailures) && openedAt == old(openedAt)
      ensures !(admitted.Closed? && !old(state).Closed?) ==>
        state == CB.Closed && consecutiveFailures == 0 && openedAt == None
    {
      CB.ExecExtends(config, trace, CB.Succeed(id, now));
      CB.TrailingExtends(trace, CB.Succeed(id, now));
      trace := trace + [CB.Succeed(id, now)];
      clock, inFlight := now, inFlight - {id};
      if admitted.Closed? && !state.Closed? {
        return;
      }
      state, consecutiveFailures, openedAt := CB.Closed, 0, None;
    }

    method RecordFailure(admitted: CircuitState, ghost id: nat, now: real)
      requires Valid() && id in inFlight && inFlight[id] == admitted && now >= clock
      modifies this
      ensures Valid() && trace == old(trace) + [CB.Fail(id, now)]
      ensures inFlight == old(inFlight) - {id} && clock == now
      ensures CB.Trailing(trace) == CB.Trailing(old(trace)) + 1
      ensures admitted.HalfOpen? ==>
        state == CB.Open && consecutiveFailures == old(consecutiveFailures) && openedAt == Some(now)
      ensures admitted.Closed? && !old(state).Closed? ==>
        state == old(state) && consecutiveFailures == old(consecutiveFailures) && openedAt == old(openedAt)
      ensures admitted.Closed? && old(state).Closed? ==>
        && consecutiveFailures == old(consecutiveFailures) + 1
        && if consecutiveFailures == failureThreshold then state == CB.Open && openedAt == Some(now)
           else state == CB.Closed && openedAt == None
    {
      CB.Invariant(config, trace);
      CB.ExecExtends(config, trace, CB.Fail(id, now));
      CB.TrailingExtends(trace, CB.Fail(id, now));
      trace := trace + [CB.Fail(id, now)];
      clock, inFlight := now, inFlight - {id};
      if admitted.HalfOpen? {
        Trip(now);
        return;
      }
      if !state.Closed? {
        return;
      }
      consecutiveFailures := consecutiveFailures + 1;
      if consecutiveFailures >= failureThreshold {
        Trip(now);
      }
    }

    method Trip(now: real)
      modifies this`state, this`openedAt
      ensures state == CB.Open && openedAt == Some(now)
    {
      state, openedAt := CB.Open, Some(now);
    }

    /** The rest of `call` once it has been admitted. */
    method RunAdmitted<T, E>(admitted: CircuitState, ghost id: nat, operation: Result<T, E>, later: real)
      returns (r: Result<T, CallError<E>>)
      requires Valid() && id in inFlight && inFlight[id] == admitted && later >= clock
      modifies this
      ensures Valid() && inFlight == old(inFlight) - {id}
      ensures trace == old(trace) + [if operation.Returned? then CB.Succeed(id, later) else CB.Fail(id, later)]
      ensures CB.Breaker(state, consecutiveFailures, openedAt) ==
        var b := CB.Breaker(old(state), old(consecutiveFailures), old(openedAt));
        if operation.Returned? then CB.RecordSuccess(b, admitted) else CB.RecordFailure(config, b, admitted, later)
      ensures r == if operation.Returned? then Returned(operation.value) else Raised(PartnerFailed(operation.error))
    {
      CB.ExecExtends(config, trace, if operation.Returned? then CB.Succeed(id, later) else CB.Fail(id, later));
      match operation {
        case Returned(value) =>
          RecordSuccess(admitted, id, later);
          r := Returned(value);
        case Raised(error) =>
          RecordFailure(admitted, id, later);
          r := Raised(PartnerFailed(error));
      }
    }

    /** `call` on a thread nobody interferes with: the operation, which ends at `later`, runs if and only if
        the call is admitted, and its own outcome is what the caller gets. */
    method Call<T, E>(ghost id: nat, now: real, operation: Result<T, E>, later: real)
      returns (r: Result<T, CallError<E>>, ghost ran: bool)
      requires Valid() && id !in inFlight && clock <= now <= later
      modifies this
      ensures Valid() && inFlight == old(inFlight)
      ensures trace == old(trace) +
        if !ran then [CB.Call(id, now, CB.CircuitOpen)]
        else [CB.Call(id, now, CB.Admitted(if old(state).Closed? then CB.Closed else CB.HalfOpen)),
              if operation.Returned? then CB.Succeed(id, later) else CB.Fail(id, later)]
      ensures ran <==> !old(state).HalfOpen? &&
                       (old(state).Open? && old(openedAt).Some? ==> now >= old(openedAt).value + recoveryTimeout)
      ensures r == if !ran then Raised(Refused)
                   else if operation.Returned? then Returned(operation.value)
                   else Raised(PartnerFailed(operation.error))
      ensures !ran ==>
        state == old(state) && consecutiveFailures == old(consecutiveFailures) && openedAt == old(openedAt)
      ensures ran && operation.Returned? ==> state.Closed? && consecutiveFailures == 0 && openedAt == None
      ensures ran && operation.Raised? ==>
        if old(state).Open? then state.Open? && openedAt == Some(later)
        else consecutiveFailures == old(consecutiveFailures) + 1
             && if consecutiveFailures == failureThreshold then state.Open? && openedAt == Some(later)
                else state.Closed? && openedAt == None
    {
      CB.Invariant(config, trace);
      var admission := BeforeCall(id, now);
      ran := admission.Admitted?;
      match admission {
        case InvalidState => r := Raised(InvalidState);
        case CircuitOpen => r := Raised(Refused);
        case Admitted(admitted) =>
          r := RunAdmitted(admitted, id, operation, later);
      }
      assert inFlight == old(inFlight);
    }
  }
}
