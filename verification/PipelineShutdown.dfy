/** The sentinel: where it is, why the drain cannot get stuck, and why it ends. */
module PipelineShutdown {
  import opened Sequences
  import opened Pipeline

  ghost predicate Clean(s: State, j: nat)
    requires j < |s.queues| == |s.workers|
  {
    && !s.workers[j].Exited? && s.workers[j] != Busy(Sentinel)
    && (forall m | m in s.queues[j] :: m.Work?)
  }

  /** The one sentinel is at stage `p` (or past the last stage): everything before `p` has exited with
      an empty queue, nothing follows the sentinel at `p`, and the stages after `p` know nothing of it. */
  ghost predicate SentinelAt(s: State, p: nat)
    requires |s.queues| == |s.workers|
  {
    && p <= |s.queues|
    && (forall j | 0 <= j < p :: s.workers[j].Exited? && s.queues[j] == [])
    && (forall j | p < j < |s.queues| :: Clean(s, j))
    && (p < |s.queues| ==>
          if s.workers[p] == Busy(Sentinel) then s.queues[p] == []
          else
            && !s.workers[p].Exited?
            && s.queues[p] != [] && Last(s.queues[p]) == Sentinel
            && (forall m | m in Front(s.queues[p]) :: m.Work?))
  }

  ghost predicate AllExited(s: State) {
    forall j | 0 <= j < |s.workers| :: s.workers[j].Exited?
  }

  /** A stage that knows nothing of the sentinel stays so until the stage before it forwards it. */
  lemma CleanStep(stages: seq<Stage>, s: State, e: Event, j: nat)
    requires Shaped(stages, s) && Step(stages, s, e).Some? && j < |stages| && Clean(s, j)
    requires j == 0 ==> e.Close? ==> s.closed
    requires j > 0 && e == Finish(j - 1) ==> s.workers[j - 1] != Busy(Sentinel)
    ensures Clean(Step(stages, s, e).value, j)
  {
    if e == Take(j) {
      assert s.queues[j][0] in s.queues[j];
    }
  }

  predicate Forwards(s: State, p: nat, e: Event) {
    p < |s.workers| && e == Finish(p) && s.workers[p] == Busy(Sentinel)
  }

  lemma SentinelForwarded(stages: seq<Stage>, s: State, p: nat)
    requires Shaped(stages, s) && s.closed && SentinelAt(s, p) && Forwards(s, p, Finish(p))
    ensures SentinelAt(Step(stages, s, Finish(p)).value, p + 1)
  {
    var s' := Step(stages, s, Finish(p)).value;
    forall j | p + 1 < j < |stages| ensures Clean(s', j) {
      assert Clean(s, j);
    }
    if p + 1 < |stages| {
      assert Clean(s, p + 1);
      assert Front(s'.queues[p + 1]) == s.queues[p + 1];
    }
  }

  lemma SentinelStays(stages: seq<Stage>, s: State, p: nat, e: Event)
    requires Shaped(stages, s) && s.closed && SentinelAt(s, p) && Step(stages, s, e).Some? && !Forwards(s, p, e)
    ensures SentinelAt(Step(stages, s, e).value, p)
  {
    var s' := Step(stages, s, e).value;
    forall j | p < j < |stages| ensures Clean(s', j) {
      assert Clean(s, j) && (p < j - 1 ==> Clean(s, j - 1));
      CleanStep(stages, s, e, j);
    }
    if e == Take(p) && |s.queues[p]| > 1 {
      assert s.queues[p][0] == Front(s.queues[p])[0];
      assert s.queues[p][0] in Front(s.queues[p]);
      assert Front(s'.queues[p]) == Front(s.queues[p])[1..];
    }
  }

  /** The sentinel stays where it is, or moves on by one stage when its holder forwards it. */
  lemma SentinelStep(stages: seq<Stage>, s: State, p: nat, e: Event)
    requires Shaped(stages, s) && s.closed && SentinelAt(s, p) && Step(stages, s, e).Some?
    ensures SentinelAt(Step(stages, s, e).value, if Forwards(s, p, e) then p + 1 else p)
  {
    if Forwards(s, p, e) {
      SentinelForwarded(stages, s, p);
    } else {
      SentinelStays(stages, s, p, e);
    }
  }

  ghost predicate AllClean(s: State) {
    |s.queues| == |s.workers| && forall j | 0 <= j < |s.queues| :: Clean(s, j)
  }

  /** Before `close` nothing changes that; `close` puts the sentinel at the first stage. */
  lemma CleanUntilClosed(stages: seq<Stage>, s: State, e: Event)
    requires Shaped(stages, s) && !s.closed && AllClean(s) && Step(stages, s, e).Some?
    ensures var s' := Step(stages, s, e).value; if s'.closed then SentinelAt(s', 0) else AllClean(s')
  {
    var s' := Step(stages, s, e).value;
    if e.Close? {
      assert Clean(s, 0) && Front(s'.queues[0]) == s.queues[0];
      forall j | 0 < j < |stages| ensures Clean(s', j) {
        assert Clean(s, j);
      }
    } else {
      forall j | 0 <= j < |stages| ensures Clean(s', j) {
        assert Clean(s, j) && (j > 0 ==> Clean(s, j - 1));
        CleanStep(stages, s, e, j);
      }
    }
  }

  /** However often `close` is called there is at most one sentinel, and it is where `SentinelAt` says. */
  lemma {:induction false} ShutdownStructure(stages: seq<Stage>, es: seq<Event>)
    requires |stages| > 0 && Exec(stages, es).Some?
    ensures !Exec(stages, es).value.closed ==> AllClean(Exec(stages, es).value)
    ensures Exec(stages, es).value.closed ==> exists p :: SentinelAt(Exec(stages, es).value, p)
  {
    if es != [] {
      ShutdownStructure(stages, Front(es));
      var s := Exec(stages, Front(es)).value;
      if s.closed {
        var p :| SentinelAt(s, p);
        SentinelStep(stages, s, p, Last(es));
      } else {
        CleanUntilClosed(stages, s, Last(es));
      }
    }
  }

  lemma SentinelProgress(stages: seq<Stage>, s: State, p: nat)
    requires Shaped(stages, s) && SentinelAt(s, p) && p < |stages|
    ensures Step(stages, s, Take(p)).Some? || Step(stages, s, Finish(p)).Some?
  {
  }

  /** No deadlock: after `close`, as long as some worker is alive some worker can move. */
  lemma DrainProgress(stages: seq<Stage>, es: seq<Event>)
    requires |stages| > 0 && Exec(stages, es).Some?
    requires Close in es && !AllExited(Exec(stages, es).value)
    ensures exists j :: Exec(stages, es + [Take(j)]).Some? || Exec(stages, es + [Finish(j)]).Some?
  {
    ClosedExactly(stages, es);
    ShutdownStructure(stages, es);
    var s := Exec(stages, es).value;
    var p :| SentinelAt(s, p);
    SentinelProgress(stages, s, p);
    assert Front(es + [Take(p)]) == es && Front(es + [Finish(p)]) == es;
  }

  /** Two steps, a take and a finish, per stage a message still has to pass. */
  function StageWork(s: State, j: nat): nat
    requires j < |s.queues| == |s.workers|
  {
    2 * (|s.queues| - j) * |s.queues[j]| + if s.workers[j].Busy? then 2 * (|s.queues| - j) - 1 else 0
  }

  function WorkLeft(s: State, n: nat): nat
    requires n <= |s.queues| == |s.workers|
  {
    if n == 0 then 0 else WorkLeft(s, n - 1) + StageWork(s, n - 1)
  }

  lemma {:induction false} WorkDrops(s: State, s': State, j: nat, n: nat)
    requires n <= |s.queues| == |s.workers| == |s'.queues| == |s'.workers| && j < |s.queues|
    requires forall i | 0 <= i < |s.queues| && i != j && i != j + 1 :: StageWork(s', i) == StageWork(s, i)
    requires StageWork(s', j) < StageWork(s, j)
    requires j + 1 < |s.queues| ==>
      StageWork(s', j) + StageWork(s', j + 1) < StageWork(s, j) + StageWork(s, j + 1)
    ensures if n <= j then WorkLeft(s', n) == WorkLeft(s, n) else WorkLeft(s', n) < WorkLeft(s, n)
  {
    if n > 0 {
      WorkDrops(s, s', j, n - 1);
      if n == j + 2 {
        WorkDrops(s, s', j, j);
      }
    }
  }

  lemma PutWork(s: State, j: nat, m: Message)
    requires j < |s.queues| == |s.workers|
    ensures StageWork(Put(s, j, m), j) == StageWork(s, j) + 2 * (|s.queues| - j)
  {
    var a, b := 2 * (|s.queues| - j), |s.queues[j]|;
    assert a * (b + 1) == a * b + a;
  }

  lemma TakeDecreases(stages: seq<Stage>, s: State, j: nat)
    requires Shaped(stages, s) && Step(stages, s, Take(j)).Some?
    ensures WorkLeft(Step(stages, s, Take(j)).value, |stages|) < WorkLeft(s, |stages|)
  {
    var a, b := 2 * (|stages| - j), |s.queues[j]|;
    assert a * (b - 1) == a * b - a;
    WorkDrops(s, Step(stages, s, Take(j)).value, j, |stages|);
  }

  lemma FinishDecreases(stages: seq<Stage>, s: State, j: nat)
    requires Shaped(stages, s) && Step(stages, s, Finish(j)).Some?
    ensures WorkLeft(Step(stages, s, Finish(j)).value, |stages|) < WorkLeft(s, |stages|)
  {
    var s' := Step(stages, s, Finish(j)).value;
    if j + 1 < |stages| && |s'.queues[j + 1]| > |s.queues[j + 1]| {
      PutWork(s, j + 1, Last(s'.queues[j + 1]));
    }
    WorkDrops(s, s', j, |stages|);
  }

  lemma WorkerStepDecreases(stages: seq<Stage>, s: State, e: Event)
    requires Shaped(stages, s) && (e.Take? || e.Finish?) && Step(stages, s, e).Some?
    ensures WorkLeft(Step(stages, s, e).value, |stages|) < WorkLeft(s, |stages|)
  {
    match e
    case Take(j) => TakeDecreases(stages, s, j);
    case Finish(j) => FinishDecreases(stages, s, j);
  }

  /** After `close` nothing is accepted any more, whoever calls. */
  lemma {:induction false} ClosedAcceptsNothing(before: seq<Event>, after: seq<Event>)
    requires Close in before
    ensures Accepted(before + after) == Accepted(before)
  {
    if after == [] {
      assert before + after == before;
    } else {
      assert Front(before + after) == before + Front(after);
      ClosedAcceptsNothing(before, Front(after));
    }
  }

  function WorkerSteps(es: seq<Event>): nat {
    if es == [] then 0 else WorkerSteps(Front(es)) + if Last(es).Take? || Last(es).Finish? then 1 else 0
  }

  /** Worker steps cannot go on for ever: after `close`, whatever other callers do meanwhile, there are never
      more of them than the work outstanding. */
  lemma {:induction false} DrainTerminates(stages: seq<Stage>, before: seq<Event>, after: seq<Event>)
    requires |stages| > 0 && Exec(stages, before + after).Some? && Close in before
    ensures Exec(stages, before).Some?
    ensures WorkerSteps(after) + WorkLeft(Exec(stages, before + after).value, |stages|)
            <= WorkLeft(Exec(stages, before).value, |stages|)
  {
    if after == [] {
      assert before + after == before;
    } else {
      assert Front(before + after) == before + Front(after);
      DrainTerminates(stages, before, Front(after));
      ClosedExactly(stages, before + Front(after));
      if Last(after).Take? || Last(after).Finish? {
        WorkerStepDecreases(stages, Exec(stages, before + Front(after)).value, Last(after));
      }
    }
  }
}
