/** The retry executor's own loops. */
module RetryObject {
  import opened Wrappers
  import opened Sequences
  import opened Retries

  datatype TasksError = NoTasks | EmptyId

  class RetryExecutor {
    const maxWorkers: nat
    const maxAttempts: nat

    constructor (maxWorkers: nat, maxAttempts: nat)
      requires maxWorkers > 0 && maxAttempts > 0
      ensures this.maxWorkers == maxWorkers && this.maxAttempts == maxAttempts
    {
      this.maxWorkers, this.maxAttempts := maxWorkers, maxAttempts;
    }

    /** The retry loop of one worker; `task(k)` is the outcome of the task's k-th call, counted from 0. */
    method RunWithRetries(taskId: string, task: nat -> Outcome) returns (r: RetryResult)
      requires maxAttempts > 0
      ensures Explains(maxAttempts, taskId, r, FirstCalls(task, r.attempts))
      ensures r.taskId == taskId && 1 <= r.attempts <= maxAttempts
      ensures forall k | 0 <= k < r.attempts - 1 :: task(k).Failure?
      ensures r.error.None? ==> r.value.Some? && task(r.attempts - 1) == Success(r.value.value)
      ensures r.error.Some? ==>
        r.attempts == maxAttempts && r.value.None? && task(maxAttempts - 1) == Failure(r.error.value)
    {
      var lastError: Option<Error> := None;
      for attempt := 1 to maxAttempts + 1
        invariant AllFailed(FirstCalls(task, attempt - 1))
        invariant lastError == if attempt == 1 then None else Some(Last(FirstCalls(task, attempt - 1)).error)
      {
        var outcome := task(attempt - 1);
        assert Front(FirstCalls(task, attempt)) == FirstCalls(task, attempt - 1);
        match outcome {
          case Success(value) =>
            r := RetryResult(taskId, attempt, Some(value), None);
            AttemptsEndAtFirstSuccess(maxAttempts, taskId, task, r);
            return;
          case Failure(error) =>
            lastError := Some(error);
        }
      }
      r := RetryResult(taskId, maxAttempts, None, lastError);
      assert Front(FirstCalls(task, maxAttempts)) == FirstCalls(task, maxAttempts - 1);
      AttemptsEndAtFirstSuccess(maxAttempts, taskId, task, r);
    }

    /** `run_all`: `tasks[i](k)` is the outcome of the k-th call of the i-th task.  The workers' attempts
        interleave as they like and results are collected as they complete; what each result is depends on
        its own task alone. */
    method RunAll(ids: seq<string>, tasks: seq<nat -> Outcome>)
      returns (r: Result<map<string, RetryResult>, TasksError>)
      requires Configured(Config(ids, maxWorkers, maxAttempts)) && |tasks| == |ids|
      ensures r.Raised? <==> ids == [] || "" in ids
      ensures r.Raised? ==> r.error == if ids == [] then NoTasks else EmptyId
      ensures r.Returned? ==>
        && (forall id :: id in r.value <==> id in ids)
        && (forall i | 0 <= i < |ids| ::
              && ids[i] in r.value
              && Explains(maxAttempts, ids[i], r.value[ids[i]], FirstCalls(tasks[i], r.value[ids[i]].attempts)))
    {
      if ids == [] {
        return Raised(NoTasks);
      }
      if "" in ids {
        return Raised(EmptyId);
      }
      ghost var c := Config(ids, maxWorkers, maxAttempts);
      var results, es := CollectAll(Config(ids, maxWorkers, maxAttempts), tasks);
      OneResultPerTask(c, es);
      forall i | 0 <= i < |ids|
        ensures ids[i] in results
        ensures Explains(maxAttempts, ids[i], results[ids[i]], FirstCalls(tasks[i], results[ids[i]].attempts))
      {
        FollowedStream(c, es, tasks, i);
      }
      r := Returned(results);
    }

    /** `run`: one task through `run_all`. */
    method Run(taskId: string, task: nat -> Outcome) returns (r: Result<RetryResult, TasksError>)
      requires maxWorkers > 0 && maxAttempts > 0
      ensures r.Raised? <==> taskId == ""
      ensures r.Returned? ==> Explains(maxAttempts, taskId, r.value, FirstCalls(task, r.value.attempts))
      ensures r.Returned? ==>
        var result := r.value;
        && result.taskId == taskId && 1 <= result.attempts <= maxAttempts
        && (forall k | 0 <= k < result.attempts - 1 :: task(k).Failure?)
        && (result.error.None? ==> result.value.Some? && task(result.attempts - 1) == Success(result.value.value))
        && (result.error.Some? ==>
              && result.attempts == maxAttempts && result.value.None?
              && task(maxAttempts - 1) == Failure(result.error.value))
    {
      var all := RunAll([taskId], [task]);
      assert [taskId][0] in [taskId];
      if all.Raised? {
        r := Raised(all.error);
      } else {
        r := Returned(all.value[taskId]);
        AttemptsEndAtFirstSuccess(maxAttempts, taskId, task, r.value);
      }
    }

    static method CollectAll(c: Config, tasks: seq<nat -> Outcome>)
      returns (results: map<string, RetryResult>, ghost es: seq<Event>)
      requires Configured(c) && |tasks| == |c.ids|
      ensures Exec(c, es).Some? && AllCollected(Exec(c, es).value) && results == Exec(c, es).value.results
      ensures Follows(es, tasks)
      ensures results.Keys == set id | id in c.ids
    {
      var progress: seq<Progress> := seq(|c.ids|, i => Waiting);
      results := map[];
      es := [];
      ghost var bound := Work(c, Initial(c).progress);
      while exists i :: 0 <= i < |progress| && !progress[i].Collected?
        invariant |progress| == |c.ids| && Exec(c, es) == Some(State(progress, results))
        invariant Follows(es, tasks)
        decreases bound - |es|
      {
        ghost var movable := SomethingToDo(c, State(progress, results));
        var i: nat :| i < |progress| &&
          (progress[i].Running? || progress[i].Finished? ||
           (progress[i].Waiting? && RunningCount(progress) < c.maxWorkers));
        ghost var e := Start(i);
        TaskInvariant(c, es, i);
        match progress[i] {
          case Waiting =>
            progress := progress[i := Running(0, None)];
          case Running(attempts, _) =>
            e := Attempt(i, tasks[i](attempts));
            progress := progress[i := AfterAttempt(c, c.ids[i], attempts, tasks[i](attempts))];
          case Finished(result) =>
            e := Collect(i);
            results := results[result.taskId := result];
            progress := progress[i := Collected];
        }
        assert Front(es + [e]) == es && Last(es + [e]) == e;
        FollowsExtends(es, tasks, e);
        es := es + [e];
        RunTerminates(c, es);
      }
      assert AllCollected(Exec(c, es).value);
      OneResultPerTask(c, es);
    }
  }
}
