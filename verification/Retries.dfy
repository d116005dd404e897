/** Retrying tasks on a pool of workers.  An attempt's outcome is whatever the partner answers, so it is
    part of the event; a task is then any stream of outcomes. */
module Retries {
  import opened Wrappers
  import opened Sequences

  type Value(==, !new)
  type Error(==, !new)

  datatype Outcome = Success(value: Value) | Failure(error: Error)

  datatype RetryResult =
    RetryResult(taskId: string, attempts: nat, value: Option<Value>, error: Option<Error>)

  /** `ids` are the task IDs in the order of the mapping, hence distinct. */
  datatype Config = Config(ids: seq<string>, maxWorkers: nat, maxAttempts: nat)

  ghost predicate Configured(c: Config) {
    && c.maxWorkers > 0 && c.maxAttempts > 0
    && forall i, j | 0 <= i < j < |c.ids| :: c.ids[i] != c.ids[j]
  }

  /** `Finished` results are waiting to be collected by `as_completed`. */
  datatype Progress =
    | Waiting
    | Running(attempts: nat, lastError: Option<Error>)
    | Finished(result: RetryResult)
    | Collected

  datatype State = State(progress: seq<Progress>, results: map<string, RetryResult>)

  datatype Event = Start(task: nat) | Attempt(task: nat, outcome: Outcome) | Collect(task: nat)

  function Initial(c: Config): State {
    State(seq(|c.ids|, i => Waiting), map[])
  }

  function RunningCount(progress: seq<Progress>): nat {
    if progress == [] then 0 else RunningCount(Front(progress)) + if Last(progress).Running? then 1 else 0
  }

  /** One turn of the retry loop: the next value of the loop state, or the result. */
  function AfterAttempt(c: Config, id: string, attempts: nat, outcome: Outcome): Progress {
    match outcome
    case Success(value) => Finished(RetryResult(id, attempts + 1, Some(value), None))
    case Failure(error) =>
      if attempts + 1 < c.maxAttempts then Running(attempts + 1, Some(error))
      else Finished(RetryResult(id, c.maxAttempts, None, Some(error)))
  }

  function Step(c: Config, s: State, e: Event): (r: Option<State>)
    requires |s.progress| == |c.ids|
    ensures r.Some? ==> |r.value.progress| == |c.ids|
  {
    if e.task >= |c.ids| then None
    else
      var id, p := c.ids[e.task], s.progress[e.task];
      match e
      case Start(i) =>
        if p.Waiting? && RunningCount(s.progress) < c.maxWorkers then
          Some(s.(progress := s.progress[i := Running(0, None)]))
        else None
      case Attempt(i, outcome) =>
        if p.Running? then Some(s.(progress := s.progress[i := AfterAttempt(c, id, p.attempts, outcome)]))
        else None
      case Collect(i) =>
        if p.Finished? then
          Some(State(s.progress[i := Collected], s.results[p.result.taskId := p.result]))
        else None
  }

  function Exec(c: Config, es: seq<Event>): (r: Option<State>)
    ensures r.Some? ==> |r.value.progress| == |c.ids|
  {
    if es == [] then Some(Initial(c))
    else
      match Exec(c, Front(es))
      case None => None
      case Some(s) => Step(c, s, Last(es))
  }

  // ---- What a result says about the calls that were made

  /** What one step adds to the calls of task i. */
  function CallsNow(e: Event, i: nat): seq<Outcome> {
    if e.Attempt? && e.task == i then [e.outcome] else []
  }

  /** The outcomes of the calls of task i, in order. */
  function Calls(es: seq<Event>, i: nat): seq<Outcome> {
    if es == [] then []
    else Calls(Front(es), i) + CallsNow(Last(es), i)
  }

  /** The first n outcomes of a task; `task(k)` is what its k-th call does, counted from 0. */
  function FirstCalls(task: nat -> Outcome, n: nat): seq<Outcome> {
    seq(n, k requires 0 <= k < n => task(k))
  }

  /** Each task behaves as its own stream of outcomes says, whatever the schedule. */
  ghost predicate Follows(es: seq<Event>, tasks: seq<nat -> Outcome>) {
    forall i | 0 <= i < |tasks| :: Calls(es, i) == FirstCalls(tasks[i], |Calls(es, i)|)
  }

  lemma CallsExtend(es: seq<Event>, e: Event, i: nat)
    ensures Calls(es + [e], i) == Calls(es, i) + CallsNow(e, i)
  {
    assert Front(es + [e]) == es;
  }

  lemma StreamExtends(calls: seq<Outcome>, task: nat -> Outcome, now: seq<Outcome>)
    requires calls == FirstCalls(task, |calls|) && (now == [] || now == [task(|calls|)])
    ensures calls + now == FirstCalls(task, |calls + now|)
  {
  }

  lemma FollowsExtends(es: seq<Event>, tasks: seq<nat -> Outcome>, e: Event)
    requires Follows(es, tasks)
    requires e.Attempt? && e.task < |tasks| ==> e.outcome == tasks[e.task](|Calls(es, e.task)|)
    ensures Follows(es + [e], tasks)
  {
    forall i | 0 <= i < |tasks| ensures Calls(es + [e], i) == FirstCalls(tasks[i], |Calls(es + [e], i)|) {
      CallsExtend(es, e, i);
      StreamExtends(Calls(es, i), tasks[i], CallsNow(e, i));
    }
  }

  ghost predicate AllFailed(calls: seq<Outcome>) {
    forall k | 0 <= k < |calls| :: calls[k].Failure?
  }

  /** The task was called `attempts` times: up to and including its first success, or as often as allowed
      when none of those calls succeeded. */
  ghost predicate Explains(maxAttempts: nat, id: string, r: RetryResult, calls: seq<Outcome>) {
    && r.taskId == id && r.attempts == |calls| && 1 <= |calls| <= maxAttempts
    && AllFailed(Front(calls))
    && match Last(calls)
       case Success(value) => r.value == Some(value) && r.error == None
       case Failure(error) => |calls| == maxAttempts && r.value == None && r.error == Some(error)
  }

  /** In terms of the stream of outcomes: the task is called up to its first success if that is within the
      limit, and exactly as often as allowed if it is not. */
  lemma AttemptsEndAtFirstSuccess(maxAttempts: nat, id: string, task: nat -> Outcome, r: RetryResult)
    requires Explains(maxAttempts, id, r, FirstCalls(task, r.attempts))
    ensures r.taskId == id
    ensures 1 <= r.attempts <= maxAttempts && forall k | 0 <= k < r.attempts - 1 :: task(k).Failure?
    ensures r.error.Some? <==> forall k | 0 <= k < maxAttempts :: task(k).Failure?
    ensures r.error.None? ==> r.value.Some? && task(r.attempts - 1) == Success(r.value.value)
    ensures r.error.Some? ==>
      r.attempts == maxAttempts && r.value.None? && task(maxAttempts - 1) == Failure(r.error.value)
  {
    var calls := FirstCalls(task, r.attempts);
    assert Last(calls) == task(r.attempts - 1);
    forall k | 0 <= k < r.attempts - 1 ensures task(k).Failure? {
      assert Front(calls)[k] == task(k);
    }
  }

  /** So the stream determines the result. */
  lemma StreamDeterminesResult(maxAttempts: nat, id: string, task: nat -> Outcome, a: RetryResult, b: RetryResult)
    requires Explains(maxAttempts, id, a, FirstCalls(task, a.attempts))
    requires Explains(maxAttempts, id, b, FirstCalls(task, b.attempts))
    ensures a == b
  {
    AttemptsEndAtFirstSuccess(maxAttempts, id, task, a);
    AttemptsEndAtFirstSuccess(maxAttempts, id, task, b);
  }

  /** Task i's loop state fits the calls made so far. */
  ghost predicate Fits(c: Config, s: State, i: nat, calls: seq<Outcome>)
    requires i < |s.progress| == |c.ids|
  {
    match s.progress[i]
    case Waiting => calls == [] && c.ids[i] !in s.results
    case Running(attempts, lastError) =>
      && attempts == |calls| < c.maxAttempts && AllFailed(calls) && c.ids[i] !in s.results
      && lastError == if calls == [] then None else Some(Last(calls).error)
    case Finished(r) => Explains(c.maxAttempts, c.ids[i], r, calls) && c.ids[i] !in s.results
    case Collected => c.ids[i] in s.results && Explains(c.maxAttempts, c.ids[i], s.results[c.ids[i]], calls)
  }

  lemma AttemptFits(c: Config, s: State, i: nat, outcome: Outcome, calls: seq<Outcome>)
    requires Configured(c) && i < |s.progress| == |c.ids| && Fits(c, s, i, calls)
    requires s.progress[i].Running?
    ensures Fits(c, Step(c, s, Attempt(i, outcome)).value, i, calls + [outcome])
  {
    var longer := calls + [outcome];
    assert Front(longer) == calls && Last(longer) == outcome;
    assert outcome.Failure? ==> AllFailed(longer);
  }

  lemma StartOrCollectFits(c: Config, s: State, e: Event, i: nat, calls: seq<Outcome>)
    requires Configured(c) && i < |s.progress| == |c.ids| && Fits(c, s, i, calls)
    requires Step(c, s, e).Some? && e.task == i && !e.Attempt?
    ensures Fits(c, Step(c, s, e).value, i, calls)
  {
  }

  lemma OtherStepFits(c: Config, s: State, e: Event, i: nat, calls: seq<Outcome>, others: seq<Outcome>)
    requires Configured(c) && i < |s.progress| == |c.ids| && Fits(c, s, i, calls)
    requires Step(c, s, e).Some? && e.task != i && Fits(c, s, e.task, others)
    ensures Fits(c, Step(c, s, e).value, i, calls)
  {
    assert c.ids[e.task] != c.ids[i];
  }

  lemma StepFits(c: Config, s: State, e: Event, i: nat, calls: seq<Outcome>, others: seq<Outcome>)
    requires Configured(c) && i < |s.progress| == |c.ids| && Fits(c, s, i, calls)
    requires Step(c, s, e).Some? && Fits(c, s, e.task, others)
    ensures Fits(c, Step(c, s, e).value, i, calls + CallsNow(e, i))
  {
    assert calls + [] == calls;
    if e.task != i {
      OtherStepFits(c, s, e, i, calls, others);
    } else if e.Attempt? {
      AttemptFits(c, s, i, e.outcome, calls);
    } else {
      StartOrCollectFits(c, s, e, i, calls);
    }
  }

  lemma {:induction false} TaskInvariant(c: Config, es: seq<Event>, i: nat)
    requires Configured(c) && Exec(c, es).Some? && i < |c.ids|
    ensures Fits(c, Exec(c, es).value, i, Calls(es, i))
  {
    if es != [] {
      TaskInvariant(c, Front(es), i);
      TaskInvariant(c, Front(es), Last(es).task);
      StepFits(c, Exec(c, Front(es)).value, Last(es), i, Calls(Front(es), i), Calls(Front(es), Last(es).task));
    }
  }

  lemma {:induction false} ResultsBelong(c: Config, es: seq<Event>, id: string)
    requires Configured(c) && Exec(c, es).Some? && id in Exec(c, es).value.results
    ensures id in c.ids
  {
    if id !in Exec(c, Front(es)).value.results {
      var e := Last(es);
      TaskInvariant(c, Front(es), e.task);
      assert c.ids[e.task] in c.ids;
    } else {
      ResultsBelong(c, Front(es), id);
    }
  }

  ghost predicate AllCollected(s: State) {
    forall i | 0 <= i < |s.progress| :: s.progress[i].Collected?
  }

  /** There is a result for task i, and it reports these calls. */
  ghost predicate TaskReported(c: Config, results: map<string, RetryResult>, i: nat, calls: seq<Outcome>)
    requires i < |c.ids|
  {
    c.ids[i] in results && Explains(c.maxAttempts, c.ids[i], results[c.ids[i]], calls)
  }

  /** Whatever the outcomes, however the workers interleave and in whatever order they complete: when all
      results have been collected there is exactly one per task ID, and it reports the calls of that task. */
  lemma OneResultPerTask(c: Config, es: seq<Event>)
    requires Configured(c) && Exec(c, es).Some? && AllCollected(Exec(c, es).value)
    ensures
      var results := Exec(c, es).value.results;
      && (forall id :: id in results <==> id in c.ids)
      && (forall i | 0 <= i < |c.ids| :: TaskReported(c, results, i, Calls(es, i)))
  {
    forall i | 0 <= i < |c.ids|
      ensures TaskReported(c, Exec(c, es).value.results, i, Calls(es, i))
    {
      TaskInvariant(c, es, i);
    }
    forall id | id in Exec(c, es).value.results ensures id in c.ids {
      ResultsBelong(c, es, id);
    }
    forall id | id in c.ids ensures id in Exec(c, es).value.results {
      var i :| 0 <= i < |c.ids| && c.ids[i] == id;
      assert TaskReported(c, Exec(c, es).value.results, i, Calls(es, i));
    }
  }

  /** The result of a task whose outcomes follow a stream is explained by the beginning of that stream. */
  lemma FollowedStream(c: Config, es: seq<Event>, tasks: seq<nat -> Outcome>, i: nat)
    requires Configured(c) && Exec(c, es).Some? && AllCollected(Exec(c, es).value)
    requires i < |tasks| == |c.ids| && Follows(es, tasks)
    ensures c.ids[i] in Exec(c, es).value.results
    ensures
      var r := Exec(c, es).value.results[c.ids[i]];
      Explains(c.maxAttempts, c.ids[i], r, FirstCalls(tasks[i], r.attempts))
  {
    OneResultPerTask(c, es);
    assert TaskReported(c, Exec(c, es).value.results, i, Calls(es, i));
  }

  lemma ResultKeys(c: Config, es: seq<Event>)
    requires Configured(c) && Exec(c, es).Some? && AllCollected(Exec(c, es).value)
    ensures Exec(c, es).value.results.Keys == set id | id in c.ids
  {
    OneResultPerTask(c, es);
  }

  lemma SameResult(
      c: Config, es: seq<Event>, c': Config, es': seq<Event>, tasks: seq<nat -> Outcome>, id: string)
    requires Configured(c) && Exec(c, es).Some? && AllCollected(Exec(c, es).value)
    requires Configured(c') && Exec(c', es').Some? && AllCollected(Exec(c', es').value)
    requires c'.ids == c.ids && c'.maxAttempts == c.maxAttempts && id in c.ids
    requires |tasks| == |c.ids| && Follows(es, tasks) && Follows(es', tasks)
    ensures id in Exec(c, es).value.results && id in Exec(c', es').value.results
    ensures Exec(c, es).value.results[id] == Exec(c', es').value.results[id]
  {
    var i :| 0 <= i < |c.ids| && c.ids[i] == id;
    FollowedStream(c, es, tasks, i);
    FollowedStream(c', es', tasks, i);
    StreamDeterminesResult(
      c.maxAttempts, id, tasks[i], Exec(c, es).value.results[id], Exec(c', es').value.results[id]);
  }

  /** `run_all` is a function of its tasks: two complete runs with the same tasks give the same results, in
      whatever order attempts interleave and results complete, and with whatever numbers of workers. */
  lemma ScheduleIndependent(
      c: Config, es: seq<Event>, c': Config, es': seq<Event>, tasks: seq<nat -> Outcome>)
    requires Configured(c) && Exec(c, es).Some? && AllCollected(Exec(c, es).value)
    requires Configured(c') && Exec(c', es').Some? && AllCollected(Exec(c', es').value)
    requires c'.ids == c.ids && c'.maxAttempts == c.maxAttempts
    requires |tasks| == |c.ids| && Follows(es, tasks) && Follows(es', tasks)
    ensures Exec(c, es).value.results == Exec(c', es').value.results
  {
    var a, b := Exec(c, es).value.results, Exec(c', es').value.results;
    ResultKeys(c, es);
    ResultKeys(c', es');
    forall id | id in a.Keys ensures a[id] == b[id] {
      SameResult(c, es, c', es', tasks, id);
    }
    assert a.Keys == b.Keys;
  }

  // ---- Progress and termination

  function Left(c: Config, p: Progress): int {
    match p
    case Waiting => c.maxAttempts + 2
    case Running(attempts, _) => c.maxAttempts + 1 - attempts
    case Finished(_) => 1
    case Collected => 0
  }

  function Work(c: Config, progress: seq<Progress>): int {
    if progress == [] then 0 else Work(c, Front(progress)) + Left(c, Last(progress))
  }

  lemma {:induction false} WorkUpdate(c: Config, progress: seq<Progress>, i: nat, p: Progress)
    requires i < |progress|
    ensures Work(c, progress[i := p]) + Left(c, progress[i]) == Work(c, progress) + Left(c, p)
  {
    if i < |progress| - 1 {
      WorkUpdate(c, Front(progress), i, p);
      assert Front(progress[i := p]) == Front(progress)[i := p];
    } else {
      assert Front(progress[i := p]) == Front(progress);
    }
  }

  lemma {:induction false} WorkIsNatural(c: Config, progress: seq<Progress>)
    requires forall i | 0 <= i < |progress| :: progress[i].Running? ==> progress[i].attempts < c.maxAttempts
    ensures 0 <= Work(c, progress)
  {
    if progress != [] {
      WorkIsNatural(c, Front(progress));
    }
  }

  lemma AttemptsAreBounded(c: Config, es: seq<Event>)
    requires Configured(c) && Exec(c, es).Some?
    ensures 0 <= Work(c, Exec(c, es).value.progress)
  {
    var progress := Exec(c, es).value.progress;
    forall i | 0 <= i < |progress| ensures progress[i].Running? ==> progress[i].attempts < c.maxAttempts {
      TaskInvariant(c, es, i);
    }
    WorkIsNatural(c, Exec(c, es).value.progress);
  }

  /** Every event uses up work, so every schedule ends. */
  lemma {:induction false} RunTerminates(c: Config, es: seq<Event>)
    requires Configured(c) && Exec(c, es).Some?
    ensures |es| + Work(c, Exec(c, es).value.progress) <= Work(c, Initial(c).progress)
    ensures |es| <= Work(c, Initial(c).progress)
  {
    AttemptsAreBounded(c, es);
    if es != [] {
      RunTerminates(c, Front(es));
      var s, s', i := Exec(c, Front(es)).value, Exec(c, es).value, Last(es).task;
      TaskInvariant(c, Front(es), i);
      WorkUpdate(c, s.progress, i, s'.progress[i]);
    }
  }

  lemma {:induction false} NoneRunningMeans(progress: seq<Progress>)
    ensures RunningCount(progress) == 0 <==> forall i | 0 <= i < |progress| :: !progress[i].Running?
  {
    if progress != [] {
      NoneRunningMeans(Front(progress));
    }
  }

  /** Until everything is collected something can happen: some attempt, some start or some collection. */
  lemma SomethingToDo(c: Config, s: State) returns (i: nat)
    requires Configured(c) && |s.progress| == |c.ids| && !AllCollected(s)
    ensures i < |c.ids|
    ensures s.progress[i].Running? || s.progress[i].Finished? ||
            (s.progress[i].Waiting? && RunningCount(s.progress) < c.maxWorkers)
  {
    NoneRunningMeans(s.progress);
    if RunningCount(s.progress) > 0 {
      i :| 0 <= i < |s.progress| && s.progress[i].Running?;
    } else {
      i :| 0 <= i < |s.progress| && !s.progress[i].Collected?;
    }
  }
}
