/** The whole-run results, and the pipeline as the mutable object the source defines. */
module PipelineObject {
  import opened Wrappers
  import opened Sequences
  import opened Pipeline
  import opened PipelineRefinement
  import opened PipelineShutdown

  ghost predicate Logged(stages: seq<Stage>, failures: seq<DocumentFailure>) {
    forall f | f in failures :: f.position < |stages| && f.stage == stages[f.position].name
  }

  lemma {:induction false} PassLogged(stages: seq<Stage>, k: nat, l: Ledger, item: Item)
    requires k <= |stages| == |l.memories| && Logged(stages, l.failures)
    ensures Logged(stages, Pass(stages, k, l, item).failures)
    decreases |stages| - k
  {
    if k < |stages| {
      var r := stages[k].run(l.memories[k], item.current);
      if r.outcome.Output? {
        PassLogged(stages, k + 1, l.(memories := l.memories[k := r.memory]), Item(item.original, r.outcome.output));
      }
    }
  }

  lemma {:induction false} SequentialLogged(stages: seq<Stage>, documents: seq<Document>)
    ensures Logged(stages, Sequential(stages, documents).failures)
  {
    if documents != [] {
      SequentialLogged(stages, Front(documents));
      PassLogged(stages, 0, Sequential(stages, Front(documents)), Item(Last(documents), Last(documents)));
    }
  }

  /** Every recorded failure names the stage at its position. */
  lemma {:induction false} FailuresLogged(stages: seq<Stage>, es: seq<Event>)
    requires |stages| > 0 && Exec(stages, es).Some?
    ensures Logged(stages, Exec(stages, es).value.failures)
    ensures forall f | f in Exec(stages, es).value.failures ::
      f.position < |stages| && f.stage == stages[f.position].name
  {
    if es != [] {
      FailuresLogged(stages, Front(es));
    }
  }

  /** A log whose failures all sit at known stages is, as a multiset, the sum of its per-stage parts. */
  lemma {:induction false} FailuresAtCount(failures: seq<DocumentFailure>, f: DocumentFailure)
    ensures multiset(failures)[f] == multiset(FailuresAt(failures, f.position))[f]
  {
    if failures != [] {
      FailuresAtCount(Front(failures), f);
      assert failures == Front(failures) + [Last(failures)];
    }
  }

  lemma FailuresAsMultiset(stages: seq<Stage>, a: seq<DocumentFailure>, b: seq<DocumentFailure>)
    requires Logged(stages, a) && Logged(stages, b)
    requires forall k | 0 <= k < |stages| :: FailuresAt(a, k) == FailuresAt(b, k)
    ensures multiset(a) == multiset(b)
  {
    forall f: DocumentFailure
      ensures multiset(a)[f] == multiset(b)[f]
    {
      if f.position < |stages| {
        FailuresAtCount(a, f);
        FailuresAtCount(b, f);
      } else {
        assert f !in a && f !in b;
      }
    }
  }

  /** With every worker gone nothing is pending, so nothing is still to come. */
  lemma {:induction false} NothingRemains(stages: seq<Stage>, s: State, k: nat)
    requires Shaped(stages, s) && k <= |stages| && AllExited(s)
    requires forall j | 0 <= j < |stages| :: s.queues[j] == []
    ensures Arrivals(stages, s, k) == []
    ensures k < |stages| ==> Remaining(stages, s, k) == StageRun(s.memories[k], [], [])
  {
    if k > 0 {
      NothingRemains(stages, s, k - 1);
    }
  }

  lemma SentinelPastTheEnd(s: State, p: nat)
    requires |s.queues| == |s.workers| && SentinelAt(s, p) && AllExited(s)
    ensures p == |s.queues|
  {
  }

  lemma ExitedMeansEmpty(stages: seq<Stage>, es: seq<Event>)
    requires |stages| > 0 && Exec(stages, es).Some? && AllExited(Exec(stages, es).value)
    ensures forall j | 0 <= j < |stages| :: Exec(stages, es).value.queues[j] == []
    ensures Close in es
  {
    var s := Exec(stages, es).value;
    ShutdownStructure(stages, es);
    ClosedExactly(stages, es);
    assert s.workers[0].Exited? && !Clean(s, 0);
    var p :| SentinelAt(s, p);
    SentinelPastTheEnd(s, p);
  }

  /** At every moment of every schedule the results are a prefix of the sequential results over the
      documents accepted so far, and so is the failure log of each stage. */
  lemma ResultsArePrefix(stages: seq<Stage>, es: seq<Event>)
    requires |stages| > 0 && Exec(stages, es).Some?
    ensures
      var s, l := Exec(stages, es).value, Sequential(stages, Accepted(es));
      && |s.completed| <= |l.completed|
      && (forall i | 0 <= i < |s.completed| ::
            s.completed[i].original == l.completed[i].original && s.completed[i].current == l.completed[i].current)
      && (forall k | 0 <= k < |stages| :: FailuresAt(s.failures, k) <= FailuresAt(l.failures, k))
  {
    EveryStateRefines(stages, es);
    var s, l := Exec(stages, es).value, Sequential(stages, Accepted(es));
    assert forall i | 0 <= i < |s.completed| :: s.completed[i] == l.completed[i];
    forall k | 0 <= k < |stages|
      ensures FailuresAt(s.failures, k) <= FailuresAt(l.failures, k)
    {
      assert Agrees(stages, s, l, k);
    }
  }

  /** Once all workers have exited the network has computed the sequential specification: the same
      results in submission order, the same failures stage by stage, the same failures as a multiset. */
  lemma DrainedEqualsSequential(stages: seq<Stage>, es: seq<Event>)
    requires |stages| > 0 && Exec(stages, es).Some? && AllExited(Exec(stages, es).value)
    ensures
      var s, l := Exec(stages, es).value, Sequential(stages, Accepted(es));
      && s.completed == l.completed
      && (forall k | 0 <= k < |stages| :: FailuresAt(s.failures, k) == FailuresAt(l.failures, k))
      && multiset(s.failures) == multiset(l.failures)
  {
    EveryStateRefines(stages, es);
    ExitedMeansEmpty(stages, es);
    var s, l := Exec(stages, es).value, Sequential(stages, Accepted(es));
    NothingRemains(stages, s, |stages|);
    forall k | 0 <= k < |stages|
      ensures FailuresAt(s.failures, k) == FailuresAt(l.failures, k)
    {
      assert Agrees(stages, s, l, k);
      NothingRemains(stages, s, k);
    }
    FailuresLogged(stages, es);
    SequentialLogged(stages, Accepted(es));
    FailuresAsMultiset(stages, s.failures, l.failures);
  }

  datatype PipelineError = PipelineClosed

  /** A call of another thread while one thread waits in `close`. */
  datatype OtherCall = SubmitCall(document: Document) | CloseCall

  /** The shared object: each method is one critical section, queue operation or worker step. */
  class DocumentPipeline {
    const stages: seq<Stage>
    var queues: seq<seq<Message>>
    var workers: seq<Worker>
    var memories: seq<Memory>
    var closed: bool
    var results: seq<Document>
    var failures: seq<DocumentFailure>
    ghost var completed: seq<Item>
    ghost var trace: seq<Event>

    static lemma AcceptedExtends(es: seq<Event>, e: Event)
      ensures Accepted(es + [e]) ==
              Accepted(es) + if e.Submit? && Event.Close !in es then [e.document] else []
    {
      AcceptedStep(es + [e]);
      assert Front(es + [e]) == es;
    }

    ghost function View(): State
      reads this
    {
      State(queues, workers, memories, closed, completed, failures)
    }

    ghost predicate Valid()
      reads this
    {
      |stages| > 0 && results == Outputs(completed) && Exec(stages, trace) == Some(View())
    }

    constructor (stages: seq<Stage>)
      requires |stages| > 0
      ensures Valid() && trace == [] && this.stages == stages
      ensures |queues| == |workers| == |memories| == |stages|
      ensures forall k | 0 <= k < |stages| ::
        queues[k] == [] && workers[k] == Idle && memories[k] == stages[k].initial
      ensures !closed && results == [] && failures == []
    {
      this.stages := stages;
      queues := seq(|stages|, i => []);
      workers := seq(|stages|, i => Idle);
      memories := seq(|stages|, i requires 0 <= i < |stages| => stages[i].initial);
      closed, results, failures, completed, trace := false, [], [], [], [];
    }

    method Submit(document: Document) returns (r: Result<(), PipelineError>)
      requires Valid()
      modifies this
      ensures Valid() && trace == old(trace) + [Event.Submit(document)]
      ensures r.Raised? <==> Event.Close in old(trace)
      ensures r.Raised? ==> View() == old(View()) && Accepted(trace) == Accepted(old(trace))
      ensures r.Returned? ==>
        && queues == old(queues)[0 := old(queues)[0] + [Work(Item(document, document))]]
        && workers == old(workers) && memories == old(memories) && closed == old(closed)
        && results == old(results) && failures == old(failures)
        && Accepted(trace) == Accepted(old(trace)) + [document]
    {
      ClosedExactly(stages, trace);
      ExecExtends(stages, trace, Event.Submit(document));
      trace := trace + [Event.Submit(document)];
      AcceptedExtends(old(trace), Event.Submit(document));
      if closed {
        return Raised(PipelineClosed);
      }
      queues := queues[0 := queues[0] + [Work(Item(document, document))]];
      r := Returned(());
    }

    method Take(j: nat)
      requires Valid() && j < |stages| && workers[j].Idle? && queues[j] != []
      modifies this
      ensures Valid() && trace == old(trace) + [Event.Take(j)] && Accepted(trace) == Accepted(old(trace))
      ensures workers == old(workers)[j := Busy(old(queues)[j][0])]
      ensures queues == old(queues)[j := old(queues)[j][1..]]
      ensures memories == old(memories) && closed == old(closed)
      ensures results == old(results) && failures == old(failures)
    {
      AcceptedExtends(trace, Event.Take(j));
      workers := workers[j := Busy(queues[j][0])];
      queues := queues[j := queues[j][1..]];
      trace := trace + [Event.Take(j)];
      assert Front(trace) == old(trace);
    }

    method ForwardItem(j: nat, original: Document, output: Document)
      requires j < |stages| == |queues| && results == Outputs(completed)
      modifies this`queues, this`results, this`completed
      ensures results == Outputs(completed)
      ensures results == if j + 1 == |stages| then old(results) + [output] else old(results)
      ensures
        if j + 1 < |stages| then
          && queues == old(queues)[j + 1 := old(queues)[j + 1] + [Work(Item(original, output))]]
          && completed == old(completed)
        else queues == old(queues) && completed == old(completed) + [Item(original, output)]
    {
      if j == |stages| - 1 {
        results := results + [output];
        completed := completed + [Item(original, output)];
        return;
      }
      queues := queues[j + 1 := queues[j + 1] + [Work(Item(original, output))]];
    }

    method ForwardSentinel(j: nat)
      requires j < |stages| == |queues|
      modifies this`queues
      ensures queues ==
        if j + 1 < |stages| then old(queues)[j + 1 := old(queues)[j + 1] + [Sentinel]] else old(queues)
    {
      if j < |stages| - 1 {
        queues := queues[j + 1 := queues[j + 1] + [Sentinel]];
      }
    }

    /** The body of the worker loop after its `queue.get()`. */
    method Finish(j: nat)
      requires Valid() && j < |stages| && workers[j].Busy?
      modifies this
      ensures Valid() && trace == old(trace) + [Event.Finish(j)] && Accepted(trace) == Accepted(old(trace))
      ensures closed == old(closed)
      ensures old(workers)[j].message.Sentinel? ==>
        && workers == old(workers)[j := Exited] && memories == old(memories)
        && results == old(results) && failures == old(failures)
        && queues == if j + 1 < |stages| then old(queues)[j + 1 := old(queues)[j + 1] + [Sentinel]] else old(queues)
      ensures old(workers)[j].message.Work? ==>
        var item := old(workers)[j].message.item;
        var r := stages[j].run(old(memories)[j], item.current);
        && workers == old(workers)[j := Idle] && memories == old(memories)[j := r.memory]
        && match r.outcome
           case Failed(error) =>
             && queues == old(queues) && results == old(results)
             && failures == old(failures) + [DocumentFailure(item.original, stages[j].name, error, j)]
           case Output(output) =>
             && failures == old(failures)
             && if j + 1 < |stages| then
                  && queues == old(queues)[j + 1 := old(queues)[j + 1] + [Work(Item(item.original, output))]]
                  && results == old(results)
                else queues == old(queues) && results == old(results) + [output]
    {
      if workers[j].message.Sentinel? {
        EndWorker(j);
      } else {
        EndDocument(j);
      }
    }

    method EndWorker(j: nat)
      requires Valid() && j < |stages| && workers[j] == Busy(Sentinel)
      modifies this
      ensures Valid() && trace == old(trace) + [Event.Finish(j)] && Accepted(trace) == Accepted(old(trace))
      ensures workers == old(workers)[j := Exited] && memories == old(memories) && closed == old(closed)
      ensures results == old(results) && failures == old(failures)
      ensures queues == if j + 1 < |stages| then old(queues)[j + 1 := old(queues)[j + 1] + [Sentinel]] else old(queues)
    {
      AcceptedExtends(trace, Event.Finish(j));
      ExecExtends(stages, trace, Event.Finish(j));
      ForwardSentinel(j);
      workers := workers[j := Exited];
      trace := trace + [Event.Finish(j)];
    }

    method EndDocument(j: nat)
      requires Valid() && j < |stages| && workers[j].Busy? && workers[j].message.Work?
      modifies this
      ensures Valid() && trace == old(trace) + [Event.Finish(j)] && Accepted(trace) == Accepted(old(trace))
      ensures closed == old(closed)
      ensures
        var item := old(workers)[j].message.item;
        var r := stages[j].run(old(memories)[j], item.current);
        && workers == old(workers)[j := Idle] && memories == old(memories)[j := r.memory]
        && match r.outcome
           case Failed(error) =>
             && queues == old(queues) && results == old(results)
             && failures == old(failures) + [DocumentFailure(item.original, stages[j].name, error, j)]
           case Output(output) =>
             && failures == old(failures)
             && if j + 1 < |stages| then
                  && queues == old(queues)[j + 1 := old(queues)[j + 1] + [Work(Item(item.original, output))]]
                  && results == old(results)
                else queues == old(queues) && results == old(results) + [output]
    {
      AcceptedExtends(trace, Event.Finish(j));
      ExecExtends(stages, trace, Event.Finish(j));
      var item := workers[j].message.item;
      var r := stages[j].run(memories[j], item.current);
      memories, workers := memories[j := r.memory], workers[j := Idle];
      match r.outcome {
        case Failed(error) =>
          failures := failures + [DocumentFailure(item.original, stages[j].name, error, j)];
        case Output(output) =>
          ForwardItem(j, item.original, output);
      }
      trace := trace + [Event.Finish(j)];
    }

    predicate SomeAlive()
      reads this
    {
      exists j :: 0 <= j < |workers| && !workers[j].Exited?
    }

    lemma SomeWorkerCanMove()
      requires Valid() && Event.Close in trace && SomeAlive()
      ensures |workers| == |queues| == |stages|
      ensures exists j: nat :: j < |stages| && (workers[j].Busy? || (workers[j].Idle? && queues[j] != []))
    {
      DrainProgress(stages, trace);
      var i: nat :| Exec(stages, trace + [Event.Take(i)]).Some? || Exec(stages, trace + [Event.Finish(i)]).Some?;
      ExecExtends(stages, trace, Event.Take(i));
      ExecExtends(stages, trace, Event.Finish(i));
      assert i < |stages| && (workers[i].Busy? || (workers[i].Idle? && queues[i] != []));
    }

    /** Any worker that can move moves. */
    method MoveSomeWorker()
      requires Valid() && Event.Close in trace && SomeAlive()
      modifies this
      ensures Valid() && |trace| > 0 && Front(trace) == old(trace) && (Last(trace).Take? || Last(trace).Finish?)
    {
      SomeWorkerCanMove();
      var j: nat :| j < |stages| && (workers[j].Busy? || (workers[j].Idle? && queues[j] != []));
      if workers[j].Idle? {
        Take(j);
      } else {
        Finish(j);
      }
      assert Front(trace) == old(trace);
    }

    ghost function Outstanding(): nat
      requires Valid()
      reads this
    {
      WorkLeft(View(), |stages|)
    }

    lemma MovingDecreases()
      requires Valid() && |trace| > 0 && (Last(trace).Take? || Last(trace).Finish?)
      ensures Exec(stages, Front(trace)).Some?
      ensures Outstanding() < WorkLeft(Exec(stages, Front(trace)).value, |stages|)
    {
      WorkerStepDecreases(stages, Exec(stages, Front(trace)).value, Last(trace));
    }

    /** The critical section of `close`. */
    method SendSentinel()
      requires Valid()
      modifies this
      ensures Valid() && trace == old(trace) + [Event.Close]
      ensures old(closed) ==> View() == old(View())
      ensures closed && Accepted(trace) == Accepted(old(trace))
      ensures !old(closed) ==>
        && queues == old(queues)[0 := old(queues)[0] + [Sentinel]] && workers == old(workers)
        && memories == old(memories) && results == old(results) && failures == old(failures)
    {
      AcceptedExtends(trace, Event.Close);
      ExecExtends(stages, trace, Event.Close);
      trace := trace + [Event.Close];
      if closed {
        return;
      }
      closed := true;
      queues := queues[0 := queues[0] + [Sentinel]];
    }

    /** What other threads do while one waits in `close`. */
    method Interrupt(calls: seq<OtherCall>)
      requires Valid() && Event.Close in trace
      modifies this
      ensures Valid() && Event.Close in trace && old(trace) <= trace
      ensures View() == old(View()) && Outstanding() == old(Outstanding())
    {
      for i := 0 to |calls|
        invariant Valid() && Event.Close in trace && old(trace) <= trace && View() == old(View())
      {
        ClosedExactly(stages, trace);
        match calls[i] {
          case SubmitCall(document) =>
            var r := Submit(document);
          case CloseCall =>
            SendSentinel();
        }
      }
    }

    /** One move, seen from the waiting `close`. */
    method MoveTowardsExit()
      requires Valid() && Event.Close in trace && SomeAlive()
      modifies this
      ensures Valid() && Event.Close in trace && old(trace) <= trace && Outstanding() < old(Outstanding())
    {
      MoveSomeWorker();
      MovingDecreases();
      assert trace == old(trace) + [Last(trace)];
    }

    /** Wait for the workers: they move in any order, and before the k-th of their steps other threads make
        the calls `others(k)`.  `patience` is the number of steps that fit before the timeout. */
    method AwaitWorkers(patience: Option<nat>, others: nat -> seq<OtherCall>) returns (stopped: bool)
      requires Valid() && Event.Close in trace
      modifies this
      ensures Valid() && old(trace) <= trace
      ensures patience.None? ==> stopped
      ensures stopped <==> forall j | 0 <= j < |workers| :: workers[j].Exited?
    {
      var steps := 0;
      while SomeAlive() && (patience.None? || steps < patience.value)
        invariant Valid() && Event.Close in trace && old(trace) <= trace
        decreases Outstanding()
      {
        Interrupt(others(steps));
        MoveTowardsExit();
        steps := steps + 1;
      }
      stopped := !SomeAlive();
    }

    /** `close`: send the sentinel once, then wait. */
    method Close(patience: Option<nat>, others: nat -> seq<OtherCall>) returns (stopped: bool)
      requires Valid()
      modifies this
      ensures Valid() && old(trace) + [Event.Close] <= trace
      ensures patience.None? ==> stopped
      ensures stopped <==> forall j | 0 <= j < |workers| :: workers[j].Exited?
      ensures stopped ==>
        var completed := Sequential(stages, Accepted(old(trace))).completed;
        |results| == |completed| && forall i | 0 <= i < |results| :: results[i] == completed[i].current
      ensures stopped ==> multiset(failures) == multiset(Sequential(stages, Accepted(old(trace))).failures)
      ensures stopped ==> forall k | 0 <= k < |stages| ::
        FailuresAt(failures, k) == FailuresAt(Sequential(stages, Accepted(old(trace))).failures, k)
    {
      SendSentinel();
      ghost var sent := trace;
      assert Front(sent) == old(trace);
      stopped := AwaitWorkers(patience, others);
      assert trace == sent + trace[|sent|..];
      ClosedAcceptsNothing(sent, trace[|sent|..]);
      AcceptedStep(sent);
      if stopped {
        DrainedEqualsSequential(stages, trace);
      }
    }

    method Failures() returns (r: seq<DocumentFailure>)
      requires Valid()
      ensures r == failures
      ensures forall f | f in r :: f.position < |stages| && f.stage == stages[f.position].name
      ensures forall k | 0 <= k < |stages| ::
        FailuresAt(r, k) <= FailuresAt(Sequential(stages, Accepted(trace)).failures, k)
    {
      r := failures;
      ResultsArePrefix(stages, trace);
      FailuresLogged(stages, trace);
    }

    method Results() returns (r: seq<Document>)
      requires Valid()
      ensures
        var completed := Sequential(stages, Accepted(trace)).completed;
        r == results && |r| <= |completed| && forall i | 0 <= i < |r| :: r[i] == completed[i].current
    {
      r := results;
      ResultsArePrefix(stages, trace);
    }
  }
}
