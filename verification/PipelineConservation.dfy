/** No document is lost or duplicated. */
module PipelineConservation {
  import opened Sequences
  import opened Pipeline
  import opened PipelineRefinement

  function Originals(items: seq<Item>): (r: seq<Document>)
    ensures |r| == |items| && forall i | 0 <= i < |r| :: r[i] == items[i].original
  {
    seq(|items|, i requires 0 <= i < |items| => items[i].original)
  }

  function FailedDocuments(failures: seq<DocumentFailure>): (r: seq<Document>)
    ensures |r| == |failures| && forall i | 0 <= i < |r| :: r[i] == failures[i].document
  {
    seq(|failures|, i requires 0 <= i < |failures| => failures[i].document)
  }

  function Count(items: seq<Document>, d: Document): nat {
    multiset(items)[d]
  }

  /** How often `d` is waiting for, or in the hands of, stage j. */
  function HeldAt(s: State, j: nat, d: Document): nat
    requires j < |s.queues| == |s.workers|
  {
    Count(Originals(Pending(s, j)), d)
  }

  function Counts(s: State, d: Document): (r: seq<nat>)
    requires |s.queues| == |s.workers|
    ensures |r| == |s.queues|
  {
    seq(|s.queues|, j requires 0 <= j < |s.queues| => HeldAt(s, j, d))
  }

  /** How often `d` is waiting for, or in the hands of, any stage. */
  function Held(s: State, d: Document): nat
    requires |s.queues| == |s.workers|
  {
    Sum(Counts(s, d))
  }

  lemma HeldFrame(s: State, s': State, d: Document)
    requires |s.queues| == |s.workers| == |s'.queues| == |s'.workers|
    requires forall i | 0 <= i < |s.queues| :: Pending(s', i) == Pending(s, i)
    ensures Held(s', d) == Held(s, d)
  {
    assert Counts(s', d) == Counts(s, d);
  }

  lemma HeldGains(s: State, x: Document, d: Document)
    requires 0 < |s.queues| == |s.workers|
    ensures Held(Put(s, 0, Work(Item(x, x))), d) == Held(s, d) + Count([x], d)
  {
    var s' := Put(s, 0, Work(Item(x, x)));
    ItemsAppend(s.queues[0], Work(Item(x, x)));
    assert Originals(Pending(s', 0)) == Originals(Pending(s, 0)) + [x];
    SumMoves(Counts(s', d), Counts(s, d), 0, Count([x], d), 0);
  }

  /** How often `d` is in a queue, in a hand, behind a result, or in a failure. */
  function Whereabouts(s: State, d: Document): nat
    requires |s.queues| == |s.workers|
  {
    Held(s, d) + Count(Originals(s.completed), d) + Count(FailedDocuments(s.failures), d)
  }

  lemma HeadCount(s: State, s': State, j: nat, item: Item, d: Document)
    requires j < |s.queues| == |s.workers| && j < |s'.queues| == |s'.workers|
    requires Pending(s, j) == [item] + Pending(s', j)
    ensures HeldAt(s, j, d) == HeldAt(s', j, d) + Count([item.original], d)
  {
    assert Originals(Pending(s, j)) == [item.original] + Originals(Pending(s', j));
  }

  lemma TailCount(s: State, s': State, j: nat, gained: seq<Item>, d: Document)
    requires j < |s.queues| == |s.workers| && j < |s'.queues| == |s'.workers|
    requires Pending(s', j) == Pending(s, j) + gained
    ensures HeldAt(s', j, d) == HeldAt(s, j, d) + Count(Originals(gained), d)
  {
    assert Originals(Pending(s', j)) == Originals(Pending(s, j)) + Originals(gained);
  }

  lemma ConsumesCount(stages: seq<Stage>, s: State, s': State, j: nat, item: Item, gained: seq<Item>, d: Document)
    requires Shaped(stages, s) && Shaped(stages, s') && j < |stages| && Consumes(stages, s, s', j, item)
    requires j + 1 < |stages| ==> Pending(s', j + 1) == Pending(s, j + 1) + gained
    ensures Held(s, d) + (if j + 1 < |stages| then Count(Originals(gained), d) else 0)
         == Held(s', d) + Count([item.original], d)
  {
    HeadCount(s, s', j, item, d);
    if j + 1 < |stages| {
      TailCount(s, s', j + 1, gained, d);
    }
    SumMoves(Counts(s, d), Counts(s', d), j, Count([item.original], d), Count(Originals(gained), d));
  }

  lemma CountAppend(a: seq<Document>, b: seq<Document>, d: Document)
    ensures Count(a + b, d) == Count(a, d) + Count(b, d)
  {
  }

  /** A finished document enters a log exactly when it leaves the pipeline. */
  lemma FinishLogs(stages: seq<Stage>, s: State, j: nat, item: Item, d: Document)
    requires Shaped(stages, s) && j < |stages| && s.workers[j] == Busy(Work(item))
    ensures
      var s' := FinishItem(stages, s, j, item);
      var outcome := stages[j].run(s.memories[j], item.current).outcome;
      && Count(FailedDocuments(s'.failures), d) ==
           Count(FailedDocuments(s.failures), d) + (if outcome.Failed? then Count([item.original], d) else 0)
      && Count(Originals(s'.completed), d) ==
           Count(Originals(s.completed), d) +
           if outcome.Output? && j + 1 == |stages| then Count([item.original], d) else 0
  {
    var s' := FinishItem(stages, s, j, item);
    CountAppend(FailedDocuments(s.failures), [item.original], d);
    CountAppend(Originals(s.completed), [item.original], d);
    match stages[j].run(s.memories[j], item.current).outcome
    case Failed(_) =>
      assert FailedDocuments(s'.failures) == FailedDocuments(s.failures) + [item.original];
    case Output(_) =>
      if j + 1 == |stages| {
        assert Originals(s'.completed) == Originals(s.completed) + [item.original];
      }
  }

  lemma FinishHeld(stages: seq<Stage>, s: State, j: nat, item: Item, d: Document)
    requires Shaped(stages, s) && j < |stages| && s.workers[j] == Busy(Work(item))
    ensures
      var outcome := stages[j].run(s.memories[j], item.current).outcome;
      Held(s, d) + (if outcome.Output? && j + 1 < |stages| then Count([item.original], d) else 0)
      == Held(FinishItem(stages, s, j, item), d) + Count([item.original], d)
  {
    FinishItemConsumes(stages, s, j, item);
    var outcome := stages[j].run(s.memories[j], item.current).outcome;
    var gained := if outcome.Output? then [Item(item.original, outcome.output)] else [];
    ConsumesCount(stages, s, FinishItem(stages, s, j, item), j, item, gained, d);
    assert Originals(gained) == if outcome.Output? then [item.original] else [];
  }

  lemma FinishConserves(stages: seq<Stage>, s: State, j: nat, item: Item, d: Document)
    requires Shaped(stages, s) && j < |stages| && s.workers[j] == Busy(Work(item))
    ensures Whereabouts(FinishItem(stages, s, j, item), d) == Whereabouts(s, d)
  {
    FinishHeld(stages, s, j, item, d);
    FinishLogs(stages, s, j, item, d);
  }

  lemma StepConserves(stages: seq<Stage>, s: State, e: Event, d: Document)
    requires Shaped(stages, s) && Step(stages, s, e).Some?
    ensures Whereabouts(Step(stages, s, e).value, d)
         == Whereabouts(s, d) + if e.Submit? && !s.closed then Count([e.document], d) else 0
  {
    var s' := Step(stages, s, e).value;
    match e {
      case Submit(x) =>
        HeldGains(s, x, d);
      case Close =>
        PutSentinelPending(s.(closed := true), 0);
        HeldFrame(s, s', d);
      case Take(j) =>
        assert Pending(s', j) == Pending(s, j);
        HeldFrame(s, s', d);
      case Finish(j) =>
        match s.workers[j].message
        case Work(item) => FinishConserves(stages, s, j, item, d);
        case Sentinel =>
          if j + 1 < |stages| {
            PutSentinelPending(s, j + 1);
          }
          HeldFrame(s, s', d);
    }
  }

  lemma HeldNothing(stages: seq<Stage>, d: Document)
    ensures Held(Initial(stages), d) == 0
  {
    SumZero(Counts(Initial(stages), d));
  }

  /** No document is lost or duplicated: in every state each accepted document is in exactly one queue,
      hand, result or failure. */
  lemma {:induction false} DocumentsConserved(stages: seq<Stage>, es: seq<Event>, d: Document)
    requires |stages| > 0 && Exec(stages, es).Some?
    ensures Whereabouts(Exec(stages, es).value, d) == Count(Accepted(es), d)
    ensures
      var s := Exec(stages, es).value;
      multiset(Accepted(es))[d] ==
        Held(s, d) + multiset(Originals(s.completed))[d] + multiset(FailedDocuments(s.failures))[d]
  {
    if es == [] {
      HeldNothing(stages, d);
    } else {
      DocumentsConserved(stages, Front(es), d);
      ClosedExactly(stages, Front(es));
      StepConserves(stages, Exec(stages, Front(es)).value, Last(es), d);
    }
  }
}
