/** The concurrent network refines the sequential specification: whatever the schedule, finishing what is
    under way yields the ledger of the documents accepted so far. */
module PipelineRefinement {
  import opened Sequences
  import opened Pipeline

  function Items(q: seq<Message>): seq<Item> {
    if q == [] then [] else (if q[0].Work? then [q[0].item] else []) + Items(q[1..])
  }

  lemma {:induction false} ItemsAppend(q: seq<Message>, m: Message)
    ensures Items(q + [m]) == Items(q) + if m.Work? then [m.item] else []
  {
    if q == [] {
      assert q + [m] == [m];
    } else {
      var longer := q + [m];
      assert longer[0] == q[0] && longer[1..] == q[1..] + [m];
      ItemsAppend(q[1..], m);
      assert Items(longer) == (if q[0].Work? then [q[0].item] else []) + Items(longer[1..]);
    }
  }

  /** The documents worker j has taken but not finished, then those waiting in its queue. */
  function Pending(s: State, j: nat): seq<Item>
    requires j < |s.queues| == |s.workers|
  {
    (if s.workers[j].Busy? && s.workers[j].message.Work? then [s.workers[j].message.item] else [])
    + Items(s.queues[j])
  }

  datatype StageRun = StageRun(memory: Memory, outputs: seq<Item>, failures: seq<DocumentFailure>)

  /** Stage k applied to a whole sequence of inputs, from a given private state. */
  function RunStage(stages: seq<Stage>, k: nat, memory: Memory, items: seq<Item>): StageRun
    requires k < |stages|
  {
    if items == [] then StageRun(memory, [], [])
    else
      var r := stages[k].run(memory, items[0].current);
      var rest := RunStage(stages, k, r.memory, items[1..]);
      match r.outcome
      case Output(output) =>
        rest.(outputs := [Item(items[0].original, output)] + rest.outputs)
      case Failed(error) =>
        rest.(failures := [DocumentFailure(items[0].original, stages[k].name, error, k)] + rest.failures)
  }

  /** What stage k-1 will still deliver to stage k if nothing more is submitted. */
  function Arrivals(stages: seq<Stage>, s: State, k: nat): seq<Item>
    requires Shaped(stages, s) && k <= |stages|
    decreases k, 0
  {
    if k == 0 then [] else Remaining(stages, s, k - 1).outputs
  }

  function Remaining(stages: seq<Stage>, s: State, k: nat): StageRun
    requires Shaped(stages, s) && k < |stages|
    decreases k, 1
  {
    RunStage(stages, k, s.memories[k], Pending(s, k) + Arrivals(stages, s, k))
  }

  /** Stage k agrees with the ledger once everything still to come has been processed. */
  ghost predicate Agrees(stages: seq<Stage>, s: State, l: Ledger, k: nat)
    requires Shaped(stages, s) && |l.memories| == |stages| && k < |stages|
  {
    && Remaining(stages, s, k).memory == l.memories[k]
    && FailuresAt(s.failures, k) + Remaining(stages, s, k).failures == FailuresAt(l.failures, k)
  }

  /** From stage `k` on, state and ledger agree. */
  ghost predicate AgreesFrom(stages: seq<Stage>, s: State, l: Ledger, k: nat)
    requires Shaped(stages, s) && |l.memories| == |stages|
  {
    && (forall i | k <= i < |stages| :: Agrees(stages, s, l, i))
    && s.completed + Arrivals(stages, s, |stages|) == l.completed
  }

  ghost predicate Refines(stages: seq<Stage>, s: State, l: Ledger)
    requires Shaped(stages, s) && |l.memories| == |stages|
  {
    AgreesFrom(stages, s, l, 0)
  }

  lemma {:induction false} RunStageAppend(stages: seq<Stage>, k: nat, memory: Memory, items: seq<Item>, x: Item)
    requires k < |stages|
    ensures
      var a, b := RunStage(stages, k, memory, items), RunStage(stages, k, memory, items + [x]);
      var r := stages[k].run(a.memory, x.current);
      && b.memory == r.memory
      && b.outputs == a.outputs + (if r.outcome.Output? then [Item(x.original, r.outcome.output)] else [])
      && b.failures == a.failures + (if r.outcome.Failed?
                                     then [DocumentFailure(x.original, stages[k].name, r.outcome.error, k)] else [])
  {
    if items == [] {
      assert items + [x] == [x] && [x][1..] == [];
    } else {
      assert (items + [x])[1..] == items[1..] + [x];
      RunStageAppend(stages, k, stages[k].run(memory, items[0].current).memory, items[1..], x);
    }
  }

  /** If the arrivals at `from` and the stages from there to `k` are the same, so are the arrivals at `k`. */
  lemma {:induction false} ArrivalsFrame(stages: seq<Stage>, s: State, s': State, from: nat, k: nat)
    requires Shaped(stages, s) && Shaped(stages, s') && from <= k <= |stages|
    requires Arrivals(stages, s', from) == Arrivals(stages, s, from)
    requires forall i | from <= i < k :: Pending(s', i) == Pending(s, i) && s'.memories[i] == s.memories[i]
    ensures Arrivals(stages, s', k) == Arrivals(stages, s, k)
  {
    if from < k {
      ArrivalsFrame(stages, s, s', from, k - 1);
    }
  }

  /** A failure appended to the log is seen at its own stage only. */
  lemma LogGrows(failures: seq<DocumentFailure>, grown: seq<DocumentFailure>, f: DocumentFailure)
    requires grown == failures + [f]
    ensures forall i: nat ::
      FailuresAt(grown, i) == FailuresAt(failures, i) + (if i == f.position then [f] else [])
  {
    assert Front(failures + [f]) == failures;
  }

  lemma {:induction false} AgreesFrame(stages: seq<Stage>, s: State, s': State, l: Ledger, from: nat)
    requires Shaped(stages, s) && Shaped(stages, s') && from <= |stages| == |l.memories|
    requires Arrivals(stages, s', from) == Arrivals(stages, s, from)
    requires forall i | from <= i < |stages| ::
      && Pending(s', i) == Pending(s, i) && s'.memories[i] == s.memories[i]
      && FailuresAt(s'.failures, i) == FailuresAt(s.failures, i)
    ensures forall i | from <= i < |stages| :: Agrees(stages, s, l, i) ==> Agrees(stages, s', l, i)
    ensures Arrivals(stages, s', |stages|) == Arrivals(stages, s, |stages|)
  {
    ArrivalsFrame(stages, s, s', from, |stages|);
    forall i | from <= i < |stages|
      ensures Remaining(stages, s', i) == Remaining(stages, s, i)
    {
      ArrivalsFrame(stages, s, s', from, i);
    }
  }

  /** `s'` is `s` with one more input `x` for stage `k` and nothing else changed from `k` on. */
  ghost predicate OneMore(stages: seq<Stage>, s: State, s': State, k: nat, x: Item)
    requires Shaped(stages, s) && Shaped(stages, s') && k <= |stages|
  {
    && s' == s.(queues := s'.queues)
    && (forall i | k < i < |stages| :: Pending(s', i) == Pending(s, i))
    && if k < |stages| then
         Pending(s', k) + Arrivals(stages, s', k) == Pending(s, k) + Arrivals(stages, s, k) + [x]
       else Arrivals(stages, s', k) == Arrivals(stages, s, k) + [x]
  }

  /** One more input at stage `k` makes one more output or one more failure there. */
  lemma OneMoreHere(stages: seq<Stage>, s: State, s': State, k: nat, x: Item)
    requires Shaped(stages, s) && Shaped(stages, s') && k < |stages| && OneMore(stages, s, s', k, x)
    ensures
      var here, there := Remaining(stages, s, k), Remaining(stages, s', k);
      var r := stages[k].run(here.memory, x.current);
      && there.memory == r.memory
      && there.outputs == here.outputs +
           (if r.outcome.Output? then [Item(x.original, r.outcome.output)] else [])
      && there.failures == here.failures +
           (if r.outcome.Failed? then [DocumentFailure(x.original, stages[k].name, r.outcome.error, k)] else [])
  {
    RunStageAppend(stages, k, s.memories[k], Pending(s, k) + Arrivals(stages, s, k), x);
  }

  lemma PassFails(stages: seq<Stage>, k: nat, l: Ledger, x: Item) returns (f: DocumentFailure)
    requires k < |stages| == |l.memories|
    requires stages[k].run(l.memories[k], x.current).outcome.Failed?
    ensures
      var r := stages[k].run(l.memories[k], x.current);
      && f == DocumentFailure(x.original, stages[k].name, r.outcome.error, k)
      && Pass(stages, k, l, x) == Ledger(l.memories[k := r.memory], l.completed, l.failures + [f])
    ensures forall i: nat ::
      FailuresAt(Pass(stages, k, l, x).failures, i) == FailuresAt(l.failures, i) + (if i == k then [f] else [])
  {
    f := Last(Pass(stages, k, l, x).failures);
    LogGrows(l.failures, Pass(stages, k, l, x).failures, f);
  }

  lemma OneMoreFailedHere(stages: seq<Stage>, s: State, s': State, l: Ledger, k: nat, x: Item)
    requires Shaped(stages, s) && Shaped(stages, s') && k < |stages| == |l.memories|
    requires OneMore(stages, s, s', k, x) && Agrees(stages, s, l, k)
    requires stages[k].run(l.memories[k], x.current).outcome.Failed?
    ensures Agrees(stages, s', Pass(stages, k, l, x), k)
    ensures Arrivals(stages, s', k + 1) == Arrivals(stages, s, k + 1)
  {
    OneMoreHere(stages, s, s', k, x);
    var f := PassFails(stages, k, l, x);
    var here, there := Remaining(stages, s, k), Remaining(stages, s', k);
    assert there.failures == here.failures + [f];
    assert FailuresAt(s'.failures, k) + there.failures == FailuresAt(s.failures, k) + here.failures + [f];
  }

  lemma OneMoreFailed(stages: seq<Stage>, s: State, s': State, l: Ledger, k: nat, x: Item)
    requires Shaped(stages, s) && Shaped(stages, s') && k < |stages| == |l.memories|
    requires OneMore(stages, s, s', k, x) && AgreesFrom(stages, s, l, k)
    requires stages[k].run(l.memories[k], x.current).outcome.Failed?
    ensures AgreesFrom(stages, s', Pass(stages, k, l, x), k)
    ensures forall i | 0 <= i < k ::
      FailuresAt(Pass(stages, k, l, x).failures, i) == FailuresAt(l.failures, i)
  {
    assert Agrees(stages, s, l, k);
    OneMoreFailedHere(stages, s, s', l, k, x);
    var f := PassFails(stages, k, l, x);
    AgreesFrame(stages, s, s', l, k + 1);
    forall i | k < i < |stages|
      ensures Agrees(stages, s', Pass(stages, k, l, x), i)
    {
      assert Agrees(stages, s, l, i);
      assert Agrees(stages, s', l, i);
    }
  }

  /** One more input that stage `k` passes on is one more input of the next stage. */
  lemma OneMorePassed(stages: seq<Stage>, s: State, s': State, l: Ledger, k: nat, x: Item)
    requires Shaped(stages, s) && Shaped(stages, s') && k < |stages| == |l.memories|
    requires OneMore(stages, s, s', k, x) && AgreesFrom(stages, s, l, k)
    requires stages[k].run(l.memories[k], x.current).outcome.Output?
    ensures
      var r := stages[k].run(l.memories[k], x.current);
      var y, l1 := Item(x.original, r.outcome.output), l.(memories := l.memories[k := r.memory]);
      && OneMore(stages, s, s', k + 1, y) && AgreesFrom(stages, s, l1, k + 1) && Agrees(stages, s', l1, k)
  {
    assert Agrees(stages, s, l, k);
    OneMoreHere(stages, s, s', k, x);
    var r := stages[k].run(l.memories[k], x.current);
    var y, l1 := Item(x.original, r.outcome.output), l.(memories := l.memories[k := r.memory]);
    forall i | k + 1 <= i < |stages| ensures Agrees(stages, s, l1, i) {
      assert Agrees(stages, s, l, i);
    }
    if k + 1 < |stages| {
      assert Pending(s', k + 1) + Arrivals(stages, s', k + 1)
          == Pending(s, k + 1) + Arrivals(stages, s, k + 1) + [y];
    }
  }

  /** One more input at stage `k` changes the ledger exactly as `Pass` does from stage `k` on. */
  lemma {:induction false} PassTravels(stages: seq<Stage>, s: State, s': State, l: Ledger, k: nat, x: Item)
    requires Shaped(stages, s) && Shaped(stages, s') && k <= |stages| == |l.memories|
    requires OneMore(stages, s, s', k, x) && AgreesFrom(stages, s, l, k)
    ensures AgreesFrom(stages, s', Pass(stages, k, l, x), k)
    ensures forall i | 0 <= i < k ::
      && Pass(stages, k, l, x).memories[i] == l.memories[i]
      && FailuresAt(Pass(stages, k, l, x).failures, i) == FailuresAt(l.failures, i)
    decreases |stages| - k
  {
    if k < |stages| {
      assert Agrees(stages, s, l, k);
      var r := stages[k].run(l.memories[k], x.current);
      if r.outcome.Failed? {
        OneMoreFailed(stages, s, s', l, k, x);
      } else {
        OneMorePassed(stages, s, s', l, k, x);
        var y, l1 := Item(x.original, r.outcome.output), l.(memories := l.memories[k := r.memory]);
        PassTravels(stages, s, s', l1, k + 1, y);
        assert Agrees(stages, s', Pass(stages, k + 1, l1, y), k);
      }
    }
  }

  lemma SubmitRefines(stages: seq<Stage>, s: State, l: Ledger, d: Document)
    requires Shaped(stages, s) && |l.memories| == |stages| && Refines(stages, s, l)
    ensures Refines(stages, Put(s, 0, Work(Item(d, d))), Pass(stages, 0, l, Item(d, d)))
  {
    ItemsAppend(s.queues[0], Work(Item(d, d)));
    var s' := Put(s, 0, Work(Item(d, d)));
    assert Pending(s', 0) + Arrivals(stages, s', 0) == Pending(s, 0) + Arrivals(stages, s, 0) + [Item(d, d)];
    PassTravels(stages, s, s', l, 0, Item(d, d));
  }

  /** A step that leaves every stage's pending documents, memory and log alone keeps the refinement. */
  lemma QuietRefines(stages: seq<Stage>, s: State, s': State, l: Ledger)
    requires Shaped(stages, s) && Shaped(stages, s') && |l.memories| == |stages| && Refines(stages, s, l)
    requires s'.memories == s.memories && s'.completed == s.completed && s'.failures == s.failures
    requires forall i | 0 <= i < |stages| :: Pending(s', i) == Pending(s, i)
    ensures Refines(stages, s', l)
  {
    AgreesFrame(stages, s, s', l, 0);
  }

  lemma PutSentinelPending(s: State, j: nat)
    requires j < |s.queues| == |s.workers|
    ensures forall i | 0 <= i < |s.queues| :: Pending(Put(s, j, Sentinel), i) == Pending(s, i)
  {
    ItemsAppend(s.queues[j], Sentinel);
  }

  /** From `s` to `s'` worker j has run its callback on its first pending document; the stages other
      than j and j+1 are as before. */
  ghost predicate Consumes(stages: seq<Stage>, s: State, s': State, j: nat, item: Item)
    requires Shaped(stages, s) && Shaped(stages, s') && j < |stages|
  {
    && Pending(s, j) == [item] + Pending(s', j)
    && s'.memories == s.memories[j := stages[j].run(s.memories[j], item.current).memory]
    && (forall i | 0 <= i < |stages| && i != j && i != j + 1 :: Pending(s', i) == Pending(s, i))
  }

  lemma FinishItemConsumes(stages: seq<Stage>, s: State, j: nat, item: Item)
    requires Shaped(stages, s) && j < |stages| && s.workers[j] == Busy(Work(item))
    ensures
      var s', outcome := FinishItem(stages, s, j, item), stages[j].run(s.memories[j], item.current).outcome;
      && Consumes(stages, s, s', j, item)
      && (j + 1 < |stages| ==>
            Pending(s', j + 1) == Pending(s, j + 1) +
            if outcome.Output? then [Item(item.original, outcome.output)] else [])
  {
    if j + 1 < |stages| && stages[j].run(s.memories[j], item.current).outcome.Output? {
      var y := Item(item.original, stages[j].run(s.memories[j], item.current).outcome.output);
      ItemsAppend(s.queues[j + 1], Work(y));
    }
  }

  lemma ConsumesUpstream(stages: seq<Stage>, s: State, s': State, l: Ledger, j: nat, item: Item)
    requires Shaped(stages, s) && Shaped(stages, s') && |l.memories| == |stages| && Refines(stages, s, l)
    requires j < |stages| && Consumes(stages, s, s', j, item)
    requires forall i | 0 <= i < j :: FailuresAt(s'.failures, i) == FailuresAt(s.failures, i)
    ensures forall i | 0 <= i < j :: Agrees(stages, s', l, i)
  {
    forall i | 0 <= i < j
      ensures Agrees(stages, s', l, i)
    {
      assert Agrees(stages, s, l, i);
      ArrivalsFrame(stages, s, s', 0, i);
    }
  }

  lemma ConsumesHere(stages: seq<Stage>, s: State, s': State, j: nat, item: Item)
    requires Shaped(stages, s) && Shaped(stages, s') && j < |stages| && Consumes(stages, s, s', j, item)
    ensures
      var outcome, here, there :=
        stages[j].run(s.memories[j], item.current).outcome, Remaining(stages, s, j), Remaining(stages, s', j);
      && here.memory == there.memory
      && here.outputs == (if outcome.Output? then [Item(item.original, outcome.output)] else []) + there.outputs
      && here.failures ==
           (if outcome.Failed? then [DocumentFailure(item.original, stages[j].name, outcome.error, j)] else [])
           + there.failures
  {
    ArrivalsFrame(stages, s, s', 0, j);
    var inputs := Pending(s, j) + Arrivals(stages, s, j);
    assert inputs[0] == item && inputs[1..] == Pending(s', j) + Arrivals(stages, s', j);
  }

  lemma FailHere(stages: seq<Stage>, s: State, s': State, l: Ledger, j: nat, item: Item, f: DocumentFailure)
    requires Shaped(stages, s) && Shaped(stages, s') && j < |stages| == |l.memories|
    requires Consumes(stages, s, s', j, item) && Agrees(stages, s, l, j)
    requires stages[j].run(s.memories[j], item.current).outcome == Failed(f.error)
    requires f == DocumentFailure(item.original, stages[j].name, f.error, j)
    requires FailuresAt(s'.failures, j) == FailuresAt(s.failures, j) + [f]
    ensures Agrees(stages, s', l, j)
    ensures Arrivals(stages, s', j + 1) == Arrivals(stages, s, j + 1)
  {
    ConsumesHere(stages, s, s', j, item);
    var here, there := Remaining(stages, s, j), Remaining(stages, s', j);
    assert here.failures == [f] + there.failures;
    assert FailuresAt(s'.failures, j) + there.failures == FailuresAt(s.failures, j) + here.failures;
  }

  /** A recorded failure is already among those its stage is going to record. */
  lemma FailRefines(
      stages: seq<Stage>, s: State, s': State, l: Ledger, j: nat, item: Item, f: DocumentFailure)
    requires Shaped(stages, s) && Shaped(stages, s') && |l.memories| == |stages| && Refines(stages, s, l)
    requires j < |stages| && Consumes(stages, s, s', j, item)
    requires j + 1 < |stages| ==> Pending(s', j + 1) == Pending(s, j + 1)
    requires stages[j].run(s.memories[j], item.current).outcome == Failed(f.error)
    requires f == DocumentFailure(item.original, stages[j].name, f.error, j)
    requires s'.failures == s.failures + [f] && s'.completed == s.completed
    ensures Refines(stages, s', l)
  {
    LogGrows(s.failures, s'.failures, f);
    ConsumesUpstream(stages, s, s', l, j, item);
    assert Agrees(stages, s, l, j);
    FailHere(stages, s, s', l, j, item, f);
    AgreesFrame(stages, s, s', l, j + 1);
  }

  lemma FinishFailedRefines(stages: seq<Stage>, s: State, l: Ledger, j: nat, item: Item)
    requires Shaped(stages, s) && |l.memories| == |stages| && Refines(stages, s, l)
    requires j < |stages| && s.workers[j] == Busy(Work(item))
    requires stages[j].run(s.memories[j], item.current).outcome.Failed?
    ensures Refines(stages, FinishItem(stages, s, j, item), l)
  {
    FinishItemConsumes(stages, s, j, item);
    var error := stages[j].run(s.memories[j], item.current).outcome.error;
    FailRefines(stages, s, FinishItem(stages, s, j, item), l, j, item,
                DocumentFailure(item.original, stages[j].name, error, j));
  }

  /** A document handed to the next queue is already among that stage's inputs. */
  lemma ForwardRefines(stages: seq<Stage>, s: State, s': State, l: Ledger, j: nat, item: Item, y: Item)
    requires Shaped(stages, s) && Shaped(stages, s') && |l.memories| == |stages| && Refines(stages, s, l)
    requires j + 1 < |stages| && Consumes(stages, s, s', j, item)
    requires stages[j].run(s.memories[j], item.current).outcome == Output(y.current)
    requires y.original == item.original && Pending(s', j + 1) == Pending(s, j + 1) + [y]
    requires s'.failures == s.failures && s'.completed == s.completed
    ensures Refines(stages, s', l)
  {
    ConsumesUpstream(stages, s, s', l, j, item);
    ConsumesHere(stages, s, s', j, item);
    assert Agrees(stages, s, l, j) && Agrees(stages, s', l, j);
    assert Pending(s', j + 1) + Arrivals(stages, s', j + 1) == Pending(s, j + 1) + Arrivals(stages, s, j + 1);
    assert Agrees(stages, s, l, j + 1) && Agrees(stages, s', l, j + 1);
    AgreesFrame(stages, s, s', l, j + 2);
  }

  /** So is a result of the last stage among the completed documents to come. */
  lemma CompleteRefines(stages: seq<Stage>, s: State, s': State, l: Ledger, j: nat, item: Item, y: Item)
    requires Shaped(stages, s) && Shaped(stages, s') && |l.memories| == |stages| && Refines(stages, s, l)
    requires j + 1 == |stages| && Consumes(stages, s, s', j, item)
    requires stages[j].run(s.memories[j], item.current).outcome == Output(y.current)
    requires y.original == item.original && s'.completed == s.completed + [y] && s'.failures == s.failures
    ensures Refines(stages, s', l)
  {
    ConsumesUpstream(stages, s, s', l, j, item);
    ConsumesHere(stages, s, s', j, item);
    assert Agrees(stages, s, l, j) && Agrees(stages, s', l, j);
    assert Arrivals(stages, s, |stages|) == [y] + Arrivals(stages, s', |stages|);
  }

  lemma FinishOutputRefines(stages: seq<Stage>, s: State, l: Ledger, j: nat, item: Item)
    requires Shaped(stages, s) && |l.memories| == |stages| && Refines(stages, s, l)
    requires j < |stages| && s.workers[j] == Busy(Work(item))
    requires stages[j].run(s.memories[j], item.current).outcome.Output?
    ensures Refines(stages, FinishItem(stages, s, j, item), l)
  {
    var s' := FinishItem(stages, s, j, item);
    var y := Item(item.original, stages[j].run(s.memories[j], item.current).outcome.output);
    FinishItemConsumes(stages, s, j, item);
    if j + 1 < |stages| {
      ForwardRefines(stages, s, s', l, j, item, y);
    } else {
      CompleteRefines(stages, s, s', l, j, item, y);
    }
  }

  lemma {:induction false} InitialRefines(stages: seq<Stage>, k: nat)
    requires 0 < |stages| && k <= |stages|
    ensures Arrivals(stages, Initial(stages), k) == []
    ensures forall i | 0 <= i < k :: Agrees(stages, Initial(stages), Sequential(stages, []), i)
  {
    if k > 0 {
      InitialRefines(stages, k - 1);
    }
  }

  lemma FinishRefines(stages: seq<Stage>, s: State, l: Ledger, j: nat)
    requires Shaped(stages, s) && |l.memories| == |stages| && Refines(stages, s, l)
    requires Step(stages, s, Finish(j)).Some?
    ensures Refines(stages, Step(stages, s, Finish(j)).value, l)
  {
    match s.workers[j].message {
      case Work(item) =>
        if stages[j].run(s.memories[j], item.current).outcome.Output? {
          FinishOutputRefines(stages, s, l, j, item);
        } else {
          FinishFailedRefines(stages, s, l, j, item);
        }
      case Sentinel =>
        if j + 1 < |stages| {
          PutSentinelPending(s, j + 1);
        }
        QuietRefines(stages, s, FinishSentinel(s, j), l);
    }
  }

  lemma StepRefines(stages: seq<Stage>, s: State, l: Ledger, e: Event)
    requires Shaped(stages, s) && |l.memories| == |stages| && Refines(stages, s, l)
    requires Step(stages, s, e).Some?
    ensures Refines(stages, Step(stages, s, e).value,
                    if e.Submit? && !s.closed then Pass(stages, 0, l, Item(e.document, e.document)) else l)
  {
    var s' := Step(stages, s, e).value;
    match e {
      case Submit(d) =>
        if !s.closed {
          SubmitRefines(stages, s, l, d);
        }
      case Close =>
        if !s.closed {
          PutSentinelPending(s.(closed := true), 0);
        }
        QuietRefines(stages, s, s', l);
      case Take(j) =>
        QuietRefines(stages, s, s', l);
      case Finish(j) =>
        FinishRefines(stages, s, l, j);
    }
  }

  /** The refinement invariant: for every schedule, finishing what is under way yields the ledger of
      the sequential specification over the documents accepted so far. */
  lemma {:induction false} EveryStateRefines(stages: seq<Stage>, es: seq<Event>)
    requires |stages| > 0 && Exec(stages, es).Some?
    ensures Refines(stages, Exec(stages, es).value, Sequential(stages, Accepted(es)))
  {
    if es == [] {
      InitialRefines(stages, |stages|);
    } else {
      EveryStateRefines(stages, Front(es));
      ClosedExactly(stages, Front(es));
      StepRefines(stages, Exec(stages, Front(es)).value, Sequential(stages, Accepted(Front(es))), Last(es));
      AcceptedStep(es);
    }
  }
}
