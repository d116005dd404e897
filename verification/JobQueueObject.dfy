/** The job queue as the mutable object the source defines. */
module JobQueueObject {
  import opened Wrappers
  import opened Sequences
  import opened JobQueue
  import opened JobQueueShutdown

  datatype QueueError = AlreadyStarted | NotStarted | IsStopping

  /** A call of another task while one waits in `stop`; a second `JoinCall` of a caller lets its `join` return
      if it has been signalled. */
  datatype OtherCall = StartCall | SubmitCall(job: Job) | StopCall | JoinCall(caller: nat)

  /** Each method is what runs between two suspension points of the event loop; `trace` records them.
      `stopper` and `joins` are the positions of the coroutines suspended inside `stop` and `join`. */
  class AsyncJobQueue {
    const workerCount: nat
    var queue: seq<Message>
    var workers: seq<Worker>
    var started: bool
    var stopping: bool
    var unfinished: int
    var failures: seq<Error>
    var stopper: Stopper
    var joins: map<nat, bool>
    ghost var trace: seq<Event>

    ghost function View(): State
      reads this
    {
      State(started, stopping, queue, workers, unfinished, failures, stopper, joins)
    }

    ghost predicate Valid()
      reads this
    {
      workerCount > 0 && Exec(workerCount, trace) == Some(View())
    }

    constructor (workerCount: nat)
      requires workerCount > 0
      ensures Valid() && trace == [] && this.workerCount == workerCount
      ensures queue == [] && workers == [] && unfinished == 0 && failures == [] && joins == map[]
      ensures !started && !stopping && stopper.NotStopping?
    {
      this.workerCount := workerCount;
      queue, workers, started, stopping, unfinished := [], [], false, false, 0;
      failures, stopper, joins, trace := [], NotStopping, map[], [];
    }

    method StartWorkers() returns (r: Result<(), QueueError>)
      requires Valid()
      modifies this
      ensures Valid() && trace == old(trace) + [Start]
      ensures r == if Start in old(trace) then Raised(AlreadyStarted) else Returned(())
      ensures r.Raised? ==> View() == old(View())
      ensures r.Returned? ==>
        && started && |workers| == workerCount && (forall w | 0 <= w < workerCount :: workers[w].Idle?)
        && queue == old(queue) && unfinished == old(unfinished) && failures == old(failures)
        && joins == old(joins) && stopping == old(stopping) && stopper == old(stopper)
    {
      FlagsFromHistory(workerCount, trace);
      ExecExtends(workerCount, trace, Start);
      trace := trace + [Start];
      if started {
        return Raised(AlreadyStarted);
      }
      started := true;
      workers := FreshWorkers(workerCount);
      r := Returned(());
    }

    method Submit(job: Job) returns (r: Result<(), QueueError>)
      requires Valid()
      modifies this
      ensures Valid() && trace == old(trace) + [Event.Submit(job)]
      ensures r ==
        if Start !in old(trace) then Raised(NotStarted)
        else if StopRequested(old(trace)) then Raised(IsStopping)
        else Returned(())
      ensures r.Raised? ==> View() == old(View()) && Accepted(trace) == Accepted(old(trace))
      ensures r.Returned? ==>
        && queue == old(queue) + [Work(job)] && unfinished == old(unfinished) + 1
        && workers == old(workers) && failures == old(failures) && joins == old(joins)
        && started == old(started) && stopping == old(stopping) && stopper == old(stopper)
        && Accepted(trace) == Accepted(old(trace)) + [job]
    {
      HistoryExtends(trace, Event.Submit(job));
      FlagsFromHistory(workerCount, trace);
      if !started {
        r := Raised(NotStarted);
      } else if stopping {
        r := Raised(IsStopping);
      } else {
        queue, unfinished := queue + [Work(job)], unfinished + 1;
        r := Returned(());
      }
      ExecExtends(workerCount, trace, Event.Submit(job));
      trace := trace + [Event.Submit(job)];
    }

    /** `join` up to its first suspension: a caller who finds nothing unfinished need not wait. */
    method BeginJoin(caller: nat)
      requires Valid() && caller !in joins
      modifies this
      ensures Valid() && trace == old(trace) + [Join(caller)]
      ensures joins == old(joins)[caller := unfinished == 0] && View() == old(View()).(joins := joins)
    {
      ExecExtends(workerCount, trace, Join(caller));
      trace := trace + [Join(caller)];
      joins := joins[caller := unfinished == 0];
    }

    /** `join` returning, some time after it was signalled. */
    method EndJoin(caller: nat)
      requires Valid() && Signals(View(), caller)
      modifies this
      ensures Valid() && trace == old(trace) + [JoinReturns(caller)]
      ensures joins == old(joins) - {caller} && View() == old(View()).(joins := joins)
    {
      ExecExtends(workerCount, trace, JoinReturns(caller));
      trace := trace + [JoinReturns(caller)];
      joins := joins - {caller};
    }

    /** The queue's `task_done`; its "called too many times" error cannot occur. */
    method MarkDone()
      requires unfinished > 0
      modifies this`unfinished, this`joins, this`stopper
      ensures unfinished == old(unfinished) - 1 && joins.Keys == old(joins).Keys
      ensures unfinished == 0 ==> forall c | c in joins :: joins[c]
      ensures unfinished != 0 ==> joins == old(joins)
      ensures stopper == if unfinished == 0 && old(stopper).Draining? then Signalled else old(stopper)
      ensures View() == TaskDone(old(View()))
    {
      unfinished := unfinished - 1;
      if unfinished == 0 {
        joins := map c | c in joins :: true;
        if stopper.Draining? {
          stopper := Signalled;
        }
      }
    }

    method Take(w: nat)
      requires Valid() && w < |workers| && workers[w].Idle? && queue != []
      modifies this
      ensures Valid() && trace == old(trace) + [Event.Take(w, old(queue)[0])]
      ensures workers == old(workers)[w := Busy(old(queue)[0])] && queue == old(queue)[1..]
      ensures unfinished == old(unfinished) && failures == old(failures) && joins == old(joins)
      ensures started == old(started) && stopping == old(stopping) && stopper == old(stopper)
    {
      ghost var m := queue[0];
      workers, queue := workers[w := Busy(queue[0])], queue[1..];
      ExecExtends(workerCount, trace, Event.Take(w, m));
      trace := trace + [Event.Take(w, m)];
    }

    lemma BusyMeansUnfinished(w: nat)
      requires Valid() && w < |workers| && workers[w].Busy?
      ensures unfinished > 0
    {
      Invariant(workerCount, trace);
      assert KindOf(workers[w]) in {Handling, Leaving};
      TallyMember(workers, Handling);
      TallyMember(workers, Leaving);
    }

    /** The rest of the worker loop once its handler has ended, or once it has found a stop token. */
    method FinishTurn(w: nat, error: Option<Error>)
      requires Valid() && w < |workers| && workers[w].Busy?
      modifies this
      ensures Valid()
      ensures trace == old(trace) +
        match old(workers)[w].message
        case StopToken => [Leave(w)]
        case Work(job) => [Finish(w, job, error)]
      ensures match old(workers)[w].message
              case StopToken =>
                && workers == old(workers)[w := Exited] && failures == old(failures)
                && Handled(trace) == Handled(old(trace))
              case Work(job) =>
                && workers == old(workers)[w := Idle]
                && failures == old(failures) + (if error.Some? then [error.value] else [])
                && Handled(trace) == Handled(old(trace)) + [job]
      ensures queue == old(queue) && unfinished == old(unfinished) - 1
      ensures unfinished == 0 ==> forall c | c in joins :: joins[c]
      ensures Accepted(trace) == Accepted(old(trace))
    {
      if workers[w].message.StopToken? {
        LeaveLoop(w);
      } else {
        EndJob(w, error);
      }
    }

    method LeaveLoop(w: nat)
      requires Valid() && w < |workers| && workers[w] == Busy(StopToken)
      modifies this
      ensures Valid() && trace == old(trace) + [Leave(w)]
      ensures workers == old(workers)[w := Exited] && failures == old(failures) && queue == old(queue)
      ensures unfinished == old(unfinished) - 1
      ensures unfinished == 0 ==> forall c | c in joins :: joins[c]
      ensures Handled(trace) == Handled(old(trace)) && Accepted(trace) == Accepted(old(trace))
    {
      BusyMeansUnfinished(w);
      HistoryExtends(trace, Leave(w));
      ExecExtends(workerCount, trace, Leave(w));
      workers := workers[w := Exited];
      MarkDone();
      trace := trace + [Leave(w)];
    }

    method EndJob(w: nat, error: Option<Error>)
      requires Valid() && w < |workers| && workers[w].Busy? && workers[w].message.Work?
      modifies this
      ensures Valid() && trace == old(trace) + [Finish(w, old(workers)[w].message.job, error)]
      ensures workers == old(workers)[w := Idle] && queue == old(queue)
      ensures failures == old(failures) + if error.Some? then [error.value] else []
      ensures unfinished == old(unfinished) - 1
      ensures unfinished == 0 ==> forall c | c in joins :: joins[c]
      ensures Handled(trace) == Handled(old(trace)) + [old(workers)[w].message.job]
      ensures Accepted(trace) == Accepted(old(trace))
    {
      BusyMeansUnfinished(w);
      ghost var e := Finish(w, workers[w].message.job, error);
      HistoryExtends(trace, e);
      ExecExtends(workerCount, trace, e);
      workers := workers[w := Idle];
      if error.Some? {
        failures := failures + [error.value];
      }
      assert failures == old(failures) + if error.Some? then [error.value] else [];
      MarkDone();
      trace := trace + [e];
    }

    method SendStopToken()
      requires Valid() && stopper.Sending? && stopper.sent < |workers|
      modifies this
      ensures Valid() && trace == old(trace) + [SendToken]
      ensures queue == old(queue) + [StopToken] && unfinished == old(unfinished) + 1
      ensures stopper == Sending(old(stopper).sent + 1)
      ensures workers == old(workers) && failures == old(failures) && joins == old(joins)
    {
      ghost var s := View();
      queue, unfinished, stopper := queue + [StopToken], unfinished + 1, Sending(stopper.sent + 1);
      assert Step(workerCount, s, SendToken) == Some(View());
      ExecExtends(workerCount, trace, SendToken);
      trace := trace + [SendToken];
    }

    predicate Alive(w: nat)
      reads this
      requires w < |workers|
    {
      workers[w].Busy? || (workers[w].Idle? && queue != [])
    }

    /** One move of a worker or of `stop` itself, whichever the event loop picks. */
    method MoveOnce(error: Option<Error>)
      requires Valid() && stopping && !stopper.Stopped?
      modifies this
      ensures Valid() && trace != [] && Front(trace) == old(trace) && IsMove(Last(trace))
    {
      Invariant(workerCount, trace);
      ghost var e := StopMoves(workerCount, View());
      assert !e.Resume? && !e.SendToken? && !e.Gather? ==> Alive(e.worker);
      if
      case stopper.Signalled? =>
        stopper := Sending(0);
        ExecExtends(workerCount, trace, Resume);
        trace := trace + [Resume];
      case stopper.Sending? && stopper.sent < |workers| =>
        SendStopToken();
      case stopper == Sending(|workers|) && (forall i :: 0 <= i < |workers| ==> workers[i].Exited?) =>
        stopper := Stopped;
        ExecExtends(workerCount, trace, Gather);
        trace := trace + [Gather];
      case exists w: nat :: w < |workers| && Alive(w) =>
        var w: nat :| w < |workers| && Alive(w);
        if workers[w].Idle? {
          Take(w);
        } else {
          FinishTurn(w, error);
        }
    }

    /** `stop` up to its first suspension; `mine` tells whether this call is the one that stops the queue. */
    method BeginStop() returns (mine: bool)
      requires Valid()
      modifies this
      ensures Valid() && trace == old(trace) + [Stop]
      ensures mine <==> Start in old(trace) && !StopRequested(old(trace))
      ensures !mine ==> View() == old(View())
      ensures mine ==>
        && stopping && stopper == (if unfinished == 0 then Sending(0) else Draining)
        && queue == old(queue) && workers == old(workers) && unfinished == old(unfinished)
        && failures == old(failures) && joins == old(joins) && started == old(started)
      ensures StopRequested(trace) <==> StopRequested(old(trace)) || Start in old(trace)
    {
      HistoryExtends(trace, Stop);
      FlagsFromHistory(workerCount, trace);
      mine := started && !stopping;
      if mine {
        stopping := true;
        stopper := if unfinished == 0 then Sending(0) else Draining;
      }
      ExecExtends(workerCount, trace, Stop);
      trace := trace + [Stop];
    }

    /** `stop`, with the event loop running whatever it likes while this call is suspended: `errors(k)` is what
        the handler that ends at the k-th turn raises, and before it other tasks make the calls `others(k)`. */
    method StopWorkers(errors: nat -> Option<Error>, others: nat -> seq<OtherCall>)
      requires Valid()
      modifies this
      ensures Valid() && old(trace) + [Stop] <= trace
      ensures Start !in old(trace) || StopRequested(old(trace)) ==>
        trace == old(trace) + [Stop] && View() == old(View())
      ensures Start in old(trace) && !StopRequested(old(trace)) ==>
        && stopper.Stopped? && queue == [] && failures == Raisings(trace)
        && (forall w | 0 <= w < |workers| :: workers[w].Exited? && TokensTaken(trace, w) == 1)
        && multiset(Handled(trace)) == multiset(Accepted(old(trace)))
      ensures Start in old(trace) ==> (stopper.Stopped? <==> !StopUnderWay(old(trace)))
    {
      StoppedIffGathered(workerCount, trace);
      var mine := BeginStop();
      if mine {
        ghost var begun := trace;
        assert Front(begun) == old(trace);
        AwaitStop(errors, others);
        assert trace == begun + trace[|begun|..];
        StoppingAcceptsNothing(begun, trace[|begun|..]);
        StopIsGraceful(workerCount, trace);
      }
    }

    /** What other tasks do while one is suspended in `stop`: their `start`, `submit` and `stop` calls change
        nothing, and they may begin or end a `join`. */
    method Interrupt(calls: seq<OtherCall>)
      requires Valid() && StopRequested(trace)
      modifies this
      ensures Valid() && StopRequested(trace) && old(trace) <= trace
      ensures View() == old(View()).(joins := joins)
    {
      FlagsFromHistory(workerCount, trace);
      Invariant(workerCount, trace);
      for i := 0 to |calls|
        invariant Valid() && started && stopping && old(trace) <= trace
        invariant View() == old(View()).(joins := joins)
      {
        FlagsFromHistory(workerCount, trace);
        match calls[i] {
          case StartCall =>
            var r := StartWorkers();
          case SubmitCall(job) =>
            var r := Submit(job);
          case StopCall =>
            var mine := BeginStop();
          case JoinCall(caller) =>
            if caller !in joins {
              BeginJoin(caller);
            } else if joins[caller] {
              EndJoin(caller);
            }
        }
      }
      FlagsFromHistory(workerCount, trace);
    }

    /** One move, seen from the waiting `stop`. */
    method MoveTowardsStop(error: Option<Error>)
      requires Valid() && StopRequested(trace) && !stopper.Stopped?
      modifies this
      ensures Valid() && StopRequested(trace) && old(trace) <= trace
      ensures 0 <= Rank(View()) < old(Rank(View()))
    {
      ghost var s := View();
      Invariant(workerCount, trace);
      FlagsFromHistory(workerCount, trace);
      MoveOnce(error);
      MoveLowersRank(workerCount, s, Last(trace));
      assert trace == old(trace) + [Last(trace)];
    }

    method AwaitStop(errors: nat -> Option<Error>, others: nat -> seq<OtherCall>)
      requires Valid() && StopRequested(trace)
      modifies this
      ensures Valid() && old(trace) <= trace && stopper.Stopped?
    {
      var turn := 0;
      while !stopper.Stopped?
        invariant Valid() && StopRequested(trace) && old(trace) <= trace
        decreases Rank(View())
      {
        Interrupt(others(turn));
        MoveTowardsStop(errors(turn));
        turn := turn + 1;
      }
    }
  }
}
