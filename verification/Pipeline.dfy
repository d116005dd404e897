/** The staged document pipeline: one worker and one FIFO queue per stage.

    A schedule is a sequence of events, one event per critical section or queue operation, and
    `Exec` replays it.  Every theorem below is about all schedules. */
module Pipeline {
  import opened Wrappers
  import opened Sequences

  type Document(==, !new)
  type Memory(==, !new)
  type Error(==, !new)

  /** A stage callback is a private state machine: only its own worker ever calls it. */
  datatype StageOutcome = Output(output: Document) | Failed(error: Error)
  datatype StageResult = StageResult(memory: Memory, outcome: StageOutcome)
  datatype Stage = Stage(name: string, initial: Memory, run: (Memory, Document) -> StageResult)

  datatype Item = Item(original: Document, current: Document)
  datatype Message = Work(item: Item) | Sentinel

  /** `position` is the index of the stage: stage names need not be unique. */
  datatype DocumentFailure =
    DocumentFailure(document: Document, stage: string, error: Error, position: nat)

  datatype Worker = Idle | Busy(message: Message) | Exited

  datatype State = State(
    queues: seq<seq<Message>>,
    workers: seq<Worker>,
    memories: seq<Memory>,
    closed: bool,
    completed: seq<Item>,
    failures: seq<DocumentFailure>)

  /** `Take(j)` is worker j's `queue.get()`; `Finish(j)` is the rest of its loop body. */
  datatype Event = Submit(document: Document) | Close | Take(stage: nat) | Finish(stage: nat)

  // ---- Steps

  ghost predicate Shaped(stages: seq<Stage>, s: State) {
    |stages| > 0 && |s.queues| == |s.workers| == |s.memories| == |stages|
  }

  function Initial(stages: seq<Stage>): State {
    State(seq(|stages|, i => []), seq(|stages|, i => Idle),
          seq(|stages|, i requires 0 <= i < |stages| => stages[i].initial), false, [], [])
  }

  function Put(s: State, j: nat, m: Message): State
    requires j < |s.queues|
  {
    s.(queues := s.queues[j := s.queues[j] + [m]])
  }

  function FinishSentinel(s: State, j: nat): State
    requires j < |s.queues| == |s.workers|
  {
    var t := if j + 1 < |s.queues| then Put(s, j + 1, Sentinel) else s;
    t.(workers := t.workers[j := Exited])
  }

  function FinishItem(stages: seq<Stage>, s: State, j: nat, item: Item): State
    requires j < |stages| == |s.queues| == |s.workers| == |s.memories|
  {
    var r := stages[j].run(s.memories[j], item.current);
    var t := s.(workers := s.workers[j := Idle], memories := s.memories[j := r.memory]);
    match r.outcome
    case Failed(error) =>
      t.(failures := t.failures + [DocumentFailure(item.original, stages[j].name, error, j)])
    case Output(output) =>
      if j + 1 < |stages| then Put(t, j + 1, Work(Item(item.original, output)))
      else t.(completed := t.completed + [Item(item.original, output)])
  }

  /** One event; `None` when the event cannot happen in `s`. */
  function Step(stages: seq<Stage>, s: State, e: Event): (r: Option<State>)
    requires Shaped(stages, s)
    ensures r.Some? ==> Shaped(stages, r.value)
  {
    match e
    case Submit(d) => Some(if s.closed then s else Put(s, 0, Work(Item(d, d))))
    case Close => Some(if s.closed then s else Put(s.(closed := true), 0, Sentinel))
    case Take(j) =>
      if j < |stages| && s.workers[j].Idle? && s.queues[j] != [] then
        Some(s.(queues := s.queues[j := s.queues[j][1..]],
                workers := s.workers[j := Busy(s.queues[j][0])]))
      else None
    case Finish(j) =>
      if j < |stages| && s.workers[j].Busy? then
        match s.workers[j].message
        case Sentinel => Some(FinishSentinel(s, j))
        case Work(item) => Some(FinishItem(stages, s, j, item))
      else None
  }

  function Exec(stages: seq<Stage>, es: seq<Event>): (r: Option<State>)
    requires |stages| > 0
    ensures r.Some? ==> Shaped(stages, r.value)
  {
    if es == [] then Some(Initial(stages))
    else
      match Exec(stages, Front(es))
      case None => None
      case Some(s) => Step(stages, s, Last(es))
  }

  // ---- The sequential specification

  lemma ExecExtends(stages: seq<Stage>, es: seq<Event>, e: Event)
    requires |stages| > 0 && Exec(stages, es).Some?
    ensures Exec(stages, es + [e]) == Step(stages, Exec(stages, es).value, e)
  {
    assert Front(es + [e]) == es;
  }

  /** The documents `submit` accepts: those submitted before the first `close`. */
  function Accepted(es: seq<Event>): seq<Document> {
    if es == [] then []
    else
      Accepted(Front(es)) +
      if Last(es).Submit? && Close !in Front(es) then [Last(es).document] else []
  }

  datatype Ledger = Ledger(memories: seq<Memory>, completed: seq<Item>, failures: seq<DocumentFailure>)

  /** Carry one document through the stages from `k` on, stopping at the first stage that fails. */
  function Pass(stages: seq<Stage>, k: nat, l: Ledger, item: Item): (r: Ledger)
    requires k <= |stages| == |l.memories|
    ensures |r.memories| == |stages|
    decreases |stages| - k
  {
    if k == |stages| then l.(completed := l.completed + [item])
    else
      var r := stages[k].run(l.memories[k], item.current);
      var l' := l.(memories := l.memories[k := r.memory]);
      match r.outcome
      case Output(output) => Pass(stages, k + 1, l', Item(item.original, output))
      case Failed(error) =>
        l'.(failures := l'.failures + [DocumentFailure(item.original, stages[k].name, error, k)])
  }

  /** The specification: no queues, no threads, one document after the other. */
  function Sequential(stages: seq<Stage>, documents: seq<Document>): (l: Ledger)
    ensures |l.memories| == |stages|
  {
    if documents == [] then Ledger(Initial(stages).memories, [], [])
    else Pass(stages, 0, Sequential(stages, Front(documents)), Item(Last(documents), Last(documents)))
  }

  function FailuresAt(failures: seq<DocumentFailure>, k: nat): seq<DocumentFailure> {
    if failures == [] then []
    else FailuresAt(Front(failures), k) + if Last(failures).position == k then [Last(failures)] else []
  }

  function Outputs(items: seq<Item>): (r: seq<Document>)
    ensures |r| == |items|
    ensures forall i | 0 <= i < |r| :: r[i] == items[i].current
  {
    seq(|items|, i requires 0 <= i < |items| => items[i].current)
  }

  // ---- Admission

  lemma {:induction false} ClosedExactly(stages: seq<Stage>, es: seq<Event>)
    requires |stages| > 0 && Exec(stages, es).Some?
    ensures Exec(stages, es).value.closed <==> Close in es
  {
    if es != [] {
      ClosedExactly(stages, Front(es));
      assert es == Front(es) + [Last(es)];
    }
  }

  lemma AcceptedStep(es: seq<Event>)
    requires es != []
    ensures
      if Last(es).Submit? && Close !in Front(es) then
        Accepted(es) != [] && Front(Accepted(es)) == Accepted(Front(es)) && Last(Accepted(es)) == Last(es).document
      else Accepted(es) == Accepted(Front(es))
  {
  }

  // ---- What the specification computes, document by document

  /** The way of one document from stage k on: `currents` are its successive contents. */
  lemma {:induction false} PassMeans(stages: seq<Stage>, k: nat, l: Ledger, item: Item)
    returns (currents: seq<Document>)
    requires k <= |stages| == |l.memories|
    ensures 1 <= |currents| <= |stages| - k + 1 && currents[0] == item.current
    ensures forall i | 0 <= i < |currents| - 1 ::
      stages[k + i].run(l.memories[k + i], currents[i]).outcome == Output(currents[i + 1])
    ensures forall i | 0 <= i < |stages| ::
      Pass(stages, k, l, item).memories[i] ==
      if k <= i < k + |currents| then stages[i].run(l.memories[i], currents[i - k]).memory else l.memories[i]
    ensures |currents| == |stages| - k + 1 ==>
      && Pass(stages, k, l, item).completed == l.completed + [Item(item.original, currents[|stages| - k])]
      && Pass(stages, k, l, item).failures == l.failures
    ensures |currents| <= |stages| - k ==>
      var j := k + |currents| - 1;
      var outcome := stages[j].run(l.memories[j], currents[j - k]).outcome;
      && outcome.Failed? && Pass(stages, k, l, item).completed == l.completed
      && Pass(stages, k, l, item).failures ==
           l.failures + [DocumentFailure(item.original, stages[j].name, outcome.error, j)]
    decreases |stages| - k
  {
    currents := [item.current];
    if k < |stages| {
      var r := stages[k].run(l.memories[k], item.current);
      if r.outcome.Output? {
        var rest := PassMeans(
          stages, k + 1, l.(memories := l.memories[k := r.memory]), Item(item.original, r.outcome.output));
        currents := [item.current] + rest;
      }
    }
  }

  /** With nothing accepted, every stage is in its initial private state and both logs are empty. */
  lemma SequentialStart(stages: seq<Stage>)
    ensures |Sequential(stages, []).memories| == |stages|
    ensures forall k | 0 <= k < |stages| :: Sequential(stages, []).memories[k] == stages[k].initial
    ensures Sequential(stages, []).completed == [] && Sequential(stages, []).failures == []
  {
  }

  /** One more document d takes the contents `currents`, starting with d itself, each the output of the next
      stage in its private state so far.  If every stage succeeds, the last contents are the one new result;
      if not, the first stage to fail is the last to run, and the one new failure names d and that stage. */
  lemma SequentialNext(stages: seq<Stage>, documents: seq<Document>, d: Document)
    returns (currents: seq<Document>)
    ensures 1 <= |currents| <= |stages| + 1 && currents[0] == d
    ensures
      var l, l' := Sequential(stages, documents), Sequential(stages, documents + [d]);
      && (forall i | 0 <= i < |currents| - 1 ::
            stages[i].run(l.memories[i], currents[i]).outcome == Output(currents[i + 1]))
      && (forall i | 0 <= i < |stages| ::
            l'.memories[i] ==
            if i < |currents| then stages[i].run(l.memories[i], currents[i]).memory else l.memories[i])
    ensures
      var l, l' := Sequential(stages, documents), Sequential(stages, documents + [d]);
      if |currents| == |stages| + 1 then
        l'.completed == l.completed + [Item(d, currents[|stages|])] && l'.failures == l.failures
      else
        var j := |currents| - 1;
        var outcome := stages[j].run(l.memories[j], currents[j]).outcome;
        && outcome.Failed? && l'.completed == l.completed
        && l'.failures == l.failures + [DocumentFailure(d, stages[j].name, outcome.error, j)]
  {
    assert Front(documents + [d]) == documents;
    currents := PassMeans(stages, 0, Sequential(stages, documents), Item(d, d));
  }
}
